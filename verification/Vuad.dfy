/** The valid and dirty bits of the second-level cache as l2warm.cc packs them: an entry of 108 bits holds
    four words, bit by bit interleaved, each with a field of twelve ways and a parity bit for dirty
    (low) and for valid (high). After any run the packed array is the table of all marks made. */
module Vuad {
  import opened LinearCode
  import opened HammingCode
  import opened CacheLine
  import opened CacheArray

  const ENTRY: nat := 108
  const WAYS: nat := 12
  const FIELD: nat := 13

  function Base(up: bool): nat {
    if up then 52 else 0
  }

  /** Where bit i of the field of word v stands. */
  function At(v: nat, up: bool, i: nat): nat {
    Base(up) + 4 * i + v
  }

  function Field(w: Bits, v: nat, up: bool): (f: Bits)
    requires |w| == ENTRY && v < 4
    ensures |f| == FIELD
  {
    seq(FIELD, i requires 0 <= i < FIELD => w[At(v, up, i)])
  }

  predicate InField(p: int, v: nat, up: bool) {
    Base(up) + v <= p < Base(up) + v + 52 && (p - Base(up) - v) % 4 == 0
  }

  function Placed(w: Bits, v: nat, up: bool, f: Bits): (r: Bits)
    requires |w| == ENTRY && v < 4 && |f| == FIELD
    ensures |r| == ENTRY
  {
    seq(ENTRY, p requires 0 <= p < ENTRY => if InField(p, v, up) then f[(p - Base(up) - v) / 4] else w[p])
  }

  /** The four words and the two fields of a word share no bit. */
  lemma Apart(v: nat, up: bool, i: nat, v': nat, up': bool)
    requires v < 4 && v' < 4 && i < FIELD
    ensures At(v, up, i) < ENTRY && (InField(At(v, up, i), v', up') <==> v == v' && up == up')
    ensures v == v' && up == up' ==> (At(v, up, i) - Base(up) - v) / 4 == i
  {
  }

  lemma FieldOfPlaced(w: Bits, v: nat, up: bool, f: Bits, v': nat, up': bool)
    requires |w| == ENTRY && v < 4 && v' < 4 && |f| == FIELD
    ensures Field(Placed(w, v, up, f), v', up') == if v == v' && up == up' then f else Field(w, v', up')
  {
    forall i | 0 <= i < FIELD
      ensures Placed(w, v, up, f)[At(v', up', i)] == if v == v' && up == up' then f[i] else w[At(v', up', i)]
    {
      Apart(v', up', i, v, up);
    }
  }

  // ---------------------------------------------------------------- one field

  /** Twelve ways and their parity. */
  function WithParity(ways: Bits): (f: Bits)
    requires |ways| == WAYS
    ensures |f| == FIELD
  {
    ways + [Odd(ways)]
  }

  /** A field with the bit of a way set if `bit` is. */
  function Marked(f: Bits, way: nat, bit: bool): (g: Bits)
    requires |f| == FIELD && way < WAYS
    ensures |g| == FIELD
  {
    WithParity(f[..WAYS][way := f[way] || bit])
  }

  method EvenParity(ways: Bits) returns (parity: bool)
    ensures parity == Odd(ways)
  {
    parity := false;
    for i := 0 to |ways|
      invariant parity == Odd(ways[..i])
    {
      assert ways[..i + 1][..i] == ways[..i];
      parity := parity != ways[i];
    }
    assert ways[..|ways|] == ways;
  }

  /** `valid` and `dirty`. */
  method Mark(f: Bits, way: nat, bit: bool) returns (g: Bits)
    requires |f| == FIELD && way < WAYS
    ensures g == Marked(f, way, bit)
  {
    var ways := f[..WAYS];
    if bit {
      ways := ways[way := true];
    }
    assert ways == f[..WAYS][way := f[way] || bit];
    var parity := EvenParity(ways);
    g := ways + [parity];
  }

  // ---------------------------------------------------------------- an entry

  method ExtractField(unpk: array<bool>, v: nat, up: bool) returns (f: Bits)
    requires unpk.Length == ENTRY && v < 4
    ensures f == Field(unpk[..], v, up)
  {
    f := [];
    var i := FIELD;
    while i > 0
      invariant 0 <= i <= FIELD && f == Field(unpk[..], v, up)[i..]
    {
      i := i - 1;
      f := [unpk[At(v, up, i)]] + f;
    }
  }

  method IntegrateField(unpk: array<bool>, v: nat, up: bool, f: Bits)
    requires unpk.Length == ENTRY && v < 4 && |f| == FIELD
    modifies unpk
    ensures unpk[..] == Placed(old(unpk[..]), v, up, f)
  {
    for i := 0 to FIELD
      invariant forall p :: 0 <= p < ENTRY ==>
        unpk[p] == if InField(p, v, up) && p < At(v, up, i) then f[(p - Base(up) - v) / 4] else old(unpk[p])
    {
      unpk[At(v, up, i)] := f[i];
    }
  }

  /** The bits of the fourteen bytes of an entry, the last of which holds four. */
  function EntryBits(bytes: seq<nat>): (w: Bits)
    requires |bytes| == 14
    ensures |w| == ENTRY
  {
    Unpacked(bytes)[..ENTRY]
  }

  /** An entry with a way of word v marked. */
  function Updated(w: Bits, v: nat, way: nat, valid: bool, dirty: bool): (r: Bits)
    requires |w| == ENTRY && v < 4 && way < WAYS
    ensures |r| == ENTRY
  {
    Placed(Placed(w, v, false, Marked(Field(w, v, false), way, dirty)), v, true, Marked(Field(w, v, true), way, valid))
  }

  lemma FieldOfUpdated(w: Bits, v: nat, way: nat, valid: bool, dirty: bool, v': nat, up: bool)
    requires |w| == ENTRY && v < 4 && v' < 4 && way < WAYS
    ensures Field(Updated(w, v, way, valid, dirty), v', up)
         == if v == v' then Marked(Field(w, v', up), way, if up then valid else dirty) else Field(w, v', up)
  {
    var low := Marked(Field(w, v, false), way, dirty);
    FieldOfPlaced(w, v, false, low, v', up);
    FieldOfPlaced(Placed(w, v, false, low), v, true, Marked(Field(w, v, true), way, valid), v', up);
  }

  method Unpack108(bytes: seq<nat>) returns (unpk: array<bool>)
    requires |bytes| == 14
    ensures fresh(unpk) && unpk[..] == EntryBits(bytes)
  {
    var bits := UnpackWord(bytes);
    var head := bits[..ENTRY];
    unpk := new bool[ENTRY](i requires 0 <= i < ENTRY => head[i]);
    assert unpk[..] == head;
  }

  /** updated_vd: read, unpack, mark, pack. */
  method UpdatedVd(bytes: seq<nat>, v: nat, way: nat, valid: bool, dirty: bool) returns (packed: seq<nat>)
    requires |bytes| == 14 && v < 4 && way < WAYS
    ensures |packed| == 14 && EntryBits(packed) == Updated(EntryBits(bytes), v, way, valid, dirty)
  {
    var unpk := Unpack108(bytes);
    var low := ExtractField(unpk, v, false);
    var high := ExtractField(unpk, v, true);
    high := Mark(high, way, valid);
    low := Mark(low, way, dirty);
    IntegrateField(unpk, v, false, low);
    IntegrateField(unpk, v, true, high);
    packed := PackWord(unpk[..]);
    PackedLength(unpk[..]);
    PackedRoundTrip(unpk[..]);
  }

  // ---------------------------------------------------------------- the array and the table

  const BANKS: nat := 4
  const INDEXES: nat := 1024

  /** An entry: bank, subarray and number within it. */
  datatype Cell = Cell(bank: nat, subarray: nat, number: nat)

  function CellOf(bank: nat, index: nat): Cell {
    Cell(bank, index / 128 % 8, index / 4 % 32)
  }

  /** Four neighbouring indexes share an entry, and no others do. */
  lemma SameCell(bank: nat, index: nat, bank': nat, index': nat)
    requires index < INDEXES && index' < INDEXES && CellOf(bank, index) == CellOf(bank', index') && index % 4 == index' % 4
    ensures bank == bank' && index == index'
  {
    Parts(index);
    Parts(index');
  }

  lemma Parts(index: nat)
    requires index < INDEXES
    ensures index == index / 128 % 8 * 128 + index / 4 % 32 * 4 + index % 4
  {
  }

  /** A call of slam_vuad, with the bits it decided on. */
  datatype Slam = Slam(bank: nat, index: nat, way: nat, valid: bool, dirty: bool)

  predicate InRange(s: Slam) {
    s.bank < BANKS && s.index < INDEXES && s.way < WAYS
  }

  datatype Switches = Switches(turnOnValid: bool, turnOnDirty: bool, turnOffDirty: bool)

  function DirtyBit(random: nat, on: Switches): bool {
    !on.turnOffDirty && (on.turnOnDirty || random / 2 % 2 == 1)
  }

  /** The way is marked valid at random, or because a switch asks for it, or because it is not dirty. */
  function ValidBit(random: nat, on: Switches): bool {
    on.turnOnValid || random % 2 == 1 || !DirtyBit(random, on)
  }

  /** How slam_vuad decides what to mark. */
  method DecideBits(random: nat, on: Switches) returns (validBit: bool, dirtyBit: bool)
    ensures validBit == ValidBit(random, on) && dirtyBit == DirtyBit(random, on) && (validBit || dirtyBit)
  {
    var vd := random % 4;
    validBit, dirtyBit := vd % 2 == 1, vd / 2 % 2 == 1;
    if on.turnOnValid {
      validBit := true;
    }
    if on.turnOnDirty {
      dirtyBit := true;
    }
    if on.turnOffDirty {
      dirtyBit := false;
    }
    if !validBit && !dirtyBit {
      validBit := true;
    }
  }

  /** Whether any call set the bit of a way. */
  predicate Set(slams: seq<Slam>, bank: nat, index: nat, way: nat, up: bool) {
    exists s :: s in slams && s.bank == bank && s.index == index && s.way == way && (if up then s.valid else s.dirty)
  }

  /** The field that the table of all marks has for a line. */
  function TableField(slams: seq<Slam>, bank: nat, index: nat, up: bool): (f: Bits)
    ensures |f| == FIELD
  {
    WithParity(seq(WAYS, way requires 0 <= way < WAYS => Set(slams, bank, index, way, up)))
  }

  lemma SetStep(slams: seq<Slam>, s: Slam, bank: nat, index: nat, way: nat, up: bool)
    ensures Set(slams + [s], bank, index, way, up)
        <==> Set(slams, bank, index, way, up) || (s.bank == bank && s.index == index && s.way == way && (if up then s.valid else s.dirty))
  {
    if Set(slams, bank, index, way, up) {
      var t :| t in slams && t.bank == bank && t.index == index && t.way == way && (if up then t.valid else t.dirty);
      assert t in slams + [s];
    }
    assert s in slams + [s];
  }

  lemma TableStep(slams: seq<Slam>, s: Slam, bank: nat, index: nat, up: bool)
    requires s.way < WAYS
    ensures TableField(slams + [s], bank, index, up)
         == if s.bank == bank && s.index == index then Marked(TableField(slams, bank, index, up), s.way, if up then s.valid else s.dirty)
            else TableField(slams, bank, index, up)
  {
    var f := TableField(slams, bank, index, up);
    var ways := seq(WAYS, way requires 0 <= way < WAYS => Set(slams + [s], bank, index, way, up));
    forall way | 0 <= way < WAYS
      ensures ways[way] == if s.bank == bank && s.index == index && s.way == way then f[way] || (if up then s.valid else s.dirty) else f[way]
    {
      SetStep(slams, s, bank, index, way, up);
    }
    if s.bank == bank && s.index == index {
      assert ways == f[..WAYS][s.way := f[s.way] || (if up then s.valid else s.dirty)];
    } else {
      assert ways == f[..WAYS];
      assert f == WithParity(f[..WAYS]);
    }
  }

  /** A cleared entry. */
  function Cleared(): seq<nat> {
    seq(14, _ => 0)
  }

  lemma {:induction false} UnpackedZero(n: nat)
    ensures Unpacked(seq(n, _ => 0)) == Zeros(8 * n)
  {
    if n > 0 {
      var s := seq(n, _ => 0);
      assert s[1..] == seq(n - 1, _ => 0);
      UnpackedZero(n - 1);
      BitsOfZero(8);
    }
  }

  /** Nothing is marked in a cleared entry, and its parities are right. */
  lemma ClearedField(v: nat, up: bool, bank: nat, index: nat)
    requires v < 4
    ensures Field(EntryBits(Cleared()), v, up) == TableField([], bank, index, up)
  {
    UnpackedZero(14);
    var ways := seq(WAYS, way requires 0 <= way < WAYS => Set([], bank, index, way, up));
    assert ways == Zeros(WAYS);
    OddZeros(WAYS);
    forall i | 0 <= i < FIELD
      ensures At(v, up, i) < ENTRY && !EntryBits(Cleared())[At(v, up, i)]
    {
      Apart(v, up, i, v, up);
    }
  }

  type Cells = map<Cell, seq<nat>>

  /** What an entry holds: one that was not written since the array was cleared is cleared. */
  function Entry(cells: Cells, c: Cell): seq<nat> {
    if c in cells then cells[c] else Cleared()
  }

  /** The bits of a line are those of the table, with the right parity. */
  ghost predicate Agrees(cells: Cells, slams: seq<Slam>, bank: nat, index: nat, up: bool) {
    var e := Entry(cells, CellOf(bank, index));
    |e| == 14 && Field(EntryBits(e), index % 4, up) == TableField(slams, bank, index, up)
  }

  ghost predicate AllAgree(cells: Cells, slams: seq<Slam>) {
    forall bank: nat, index: nat, up :: index < INDEXES ==> Agrees(cells, slams, bank, index, up)
  }

  lemma NoneAgree(cells: Cells, slams: seq<Slam>)
    requires cells == map[] && slams == []
    ensures AllAgree(cells, slams)
  {
    forall bank: nat, index: nat, up | index < INDEXES
      ensures Agrees(cells, slams, bank, index, up)
    {
      ClearedField(index % 4, up, bank, index);
    }
  }

  /** Marking one way of one line changes nothing else of any line. */
  lemma OneSlamMore(cells: Cells, slams: seq<Slam>, s: Slam, packed: seq<nat>)
    requires AllAgree(cells, slams) && InRange(s) && |packed| == 14 && |Entry(cells, CellOf(s.bank, s.index))| == 14
    requires EntryBits(packed) == Updated(EntryBits(Entry(cells, CellOf(s.bank, s.index))), s.index % 4, s.way, s.valid, s.dirty)
    ensures AllAgree(cells[CellOf(s.bank, s.index) := packed], slams + [s])
  {
    var later, more := cells[CellOf(s.bank, s.index) := packed], slams + [s];
    forall bank: nat, index: nat, up | index < INDEXES
      ensures Agrees(later, more, bank, index, up)
    {
      assert Agrees(cells, slams, bank, index, up);
      Step(slams, s, Entry(cells, CellOf(s.bank, s.index)), packed, bank, index, up, Entry(cells, CellOf(bank, index)));
    }
  }

  lemma Step(slams: seq<Slam>, s: Slam, e: seq<nat>, packed: seq<nat>, bank: nat, index: nat, up: bool, was: seq<nat>)
    requires InRange(s) && index < INDEXES && |e| == |was| == |packed| == 14
    requires EntryBits(packed) == Updated(EntryBits(e), s.index % 4, s.way, s.valid, s.dirty)
    requires Field(EntryBits(was), index % 4, up) == TableField(slams, bank, index, up)
    requires CellOf(bank, index) == CellOf(s.bank, s.index) ==> was == e
    ensures Field(EntryBits(if CellOf(bank, index) == CellOf(s.bank, s.index) then packed else was), index % 4, up)
         == TableField(slams + [s], bank, index, up)
  {
    TableStep(slams, s, bank, index, up);
    if CellOf(bank, index) == CellOf(s.bank, s.index) {
      FieldOfUpdated(EntryBits(e), s.index % 4, s.way, s.valid, s.dirty, index % 4, up);
      if index % 4 == s.index % 4 {
        SameCell(bank, index, s.bank, s.index);
      }
    }
  }

  class VuadArray {
    const switches: Switches
    var cells: Cells
    /** The calls of slam_vuad since the array was cleared. */
    ghost var slams: seq<Slam>

    ghost predicate Valid()
      reads this
    {
      AllAgree(cells, slams)
    }

    /** l2_clear_vuad. */
    constructor (switches: Switches)
      ensures Valid() && slams == [] && this.switches == switches
    {
      this.switches, cells, slams := switches, map[], [];
      NoneAgree(map[], []);
    }

    /** slam_vuad. */
    method SlamVuad(bank: nat, index: nat, way: nat, random: nat)
      requires Valid() && bank < BANKS && index < INDEXES && way < WAYS
      modifies this
      ensures Valid() && slams == old(slams) + [Slam(bank, index, way, ValidBit(random, switches), DirtyBit(random, switches))]
    {
      var validBit, dirtyBit := DecideBits(random, switches);
      Update(Slam(bank, index, way, validBit, dirtyBit));
    }

    method Update(s: Slam)
      requires Valid() && InRange(s)
      modifies this
      ensures Valid() && slams == old(slams) + [s]
    {
      var cell := CellOf(s.bank, s.index);
      assert Agrees(cells, slams, s.bank, s.index, true);
      var packed := UpdatedVd(Entry(cells, cell), s.index % 4, s.way, s.valid, s.dirty);
      OneSlamMore(cells, slams, s, packed);
      cells := cells[cell := packed];
      slams := slams + [s];
    }

    /** After any run the bit of a way is set exactly if some call set it, and the parity bit of its
        field is right. */
    method Read(bank: nat, index: nat, up: bool) returns (f: Bits)
      requires Valid() && bank < BANKS && index < INDEXES
      ensures |f| == FIELD && f[WAYS] == Odd(f[..WAYS])
      ensures forall way :: 0 <= way < WAYS ==> (f[way] <==> Set(slams, bank, index, way, up))
    {
      assert Agrees(cells, slams, bank, index, up);
      var unpk := Unpack108(Entry(cells, CellOf(bank, index)));
      f := ExtractField(unpk, index % 4, up);
      TableFieldAt(slams, bank, index, up);
    }
  }

  lemma TableFieldAt(slams: seq<Slam>, bank: nat, index: nat, up: bool)
    ensures var f := TableField(slams, bank, index, up);
      && f[WAYS] == Odd(f[..WAYS])
      && forall way :: 0 <= way < WAYS ==> (f[way] <==> Set(slams, bank, index, way, up))
  {
    var ways := seq(WAYS, way requires 0 <= way < WAYS => Set(slams, bank, index, way, up));
    assert TableField(slams, bank, index, up)[..WAYS] == ways;
  }

  // ---------------------------------------------------------------- where every bit stands

  lemma FieldBits(w: Bits, v: nat, up: bool, i: nat)
    requires |w| == ENTRY && v < 4 && i < FIELD
    ensures Field(w, v, up)[i] == w[(if up then 52 else 0) + 4 * i + v]
  {
  }

  /** Marking a way of word v: of the 96 bits of ways, the valid ones stand from bit 52 on and the dirty ones from
      bit 0 on, four apart, and only those of the way change. */
  lemma MarkedBits(w: Bits, v: nat, way: nat, valid: bool, dirty: bool, v': nat, up: bool, i: nat)
    requires |w| == ENTRY && v < 4 && way < WAYS && v' < 4 && i < WAYS
    ensures var p := (if up then 52 else 0) + 4 * i + v';
      Updated(w, v, way, valid, dirty)[p] == (w[p] || (v' == v && i == way && (if up then valid else dirty)))
  {
    var u := Updated(w, v, way, valid, dirty);
    FieldOfUpdated(w, v, way, valid, dirty, v', up);
    FieldBits(w, v', up, i);
    FieldBits(u, v', up, i);
    MarkedField(Field(w, v', up), way, if up then valid else dirty);
  }

  lemma MarkedField(f: Bits, way: nat, bit: bool)
    requires |f| == FIELD && way < WAYS
    ensures forall i :: 0 <= i < WAYS ==> Marked(f, way, bit)[i] == (f[i] || (i == way && bit))
  {
  }

  /** The entry of a line and its word in it are its index in mixed radix. */
  lemma CellOfIndex(bank: nat, index: nat)
    requires index < 1024
    ensures var c := CellOf(bank, index);
      c.bank == bank && c.subarray < 8 && c.number < 32 && 128 * c.subarray + 4 * c.number + index % 4 == index
  {
    Parts(index);
  }

  lemma LowTwoBits(random: nat)
    ensures random % 4 == 2 * (random / 2 % 2) + random % 2
  {
  }

  /** Without switches the random number decides, and a way marked neither way is marked valid. */
  lemma DecisionsListed(random: nat, on: Switches)
    ensures !on.turnOnValid && !on.turnOnDirty && !on.turnOffDirty ==>
      (ValidBit(random, on) <==> random % 4 != 2) && (DirtyBit(random, on) <==> random % 4 >= 2)
    ensures on.turnOffDirty ==> ValidBit(random, on) && !DirtyBit(random, on)
    ensures on.turnOnValid ==> ValidBit(random, on)
    ensures on.turnOnDirty && !on.turnOffDirty ==> DirtyBit(random, on)
  {
    LowTwoBits(random);
  }
}
