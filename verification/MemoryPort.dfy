/** The 64-bit memory port of iob_main.cc: an ordered index of 64-byte lines behind a one-line
    cache for each of 32 threads. */
module MemoryPort {
  import opened Words
  import opened Atoms
  import opened BTree
  import opened Sequences

  const THREADS := 32
  const LINES := 0x4_0000_0000

  /** The contents of the lines in the index, by line number. */
  type Lines = map<nat, Line>

  function LineOf(key: nat): nat {
    key / 64 % LINES
  }

  /** Offset of the 8-byte slot within its line: key & 0x38. */
  function Offset(key: nat): (o: nat)
    ensures o + 8 <= ATOM_DATA_SIZE && o % 8 == 0
  {
    key / 8 % 8 * 8
  }

  /** The number of an 8-byte slot of the memory, of which 40 address bits count. */
  const SLOTS := 0x20_0000_0000

  predicate SameSlot(a: nat, b: nat) {
    LineOf(a) == LineOf(b) && Offset(a) == Offset(b)
  }

  /** Line and offset make up the address, cut to 40 bits and aligned to 8 bytes. */
  lemma LineAndOffset(key: nat)
    ensures 64 * LineOf(key) + Offset(key) == key % 0x100_0000_0000 - key % 8
  {
    SlotOf(key);
    LineOfSlot(key / 8);
    assert key / 8 / 8 == key / 64;
  }

  lemma SlotOf(key: nat)
    ensures 8 * (key / 8 % SLOTS) == key % 0x100_0000_0000 - key % 8
  {
    var high := key / 0x100_0000_0000;
    var low := key % 0x100_0000_0000;
    assert key / 8 == SLOTS * high + low / 8;
    Remainder(high, low / 8);
  }

  lemma Remainder(high: nat, low: nat)
    requires low < SLOTS
    ensures (SLOTS * high + low) % SLOTS == low
  {
  }

  lemma LineOfSlot(slot: nat)
    ensures 8 * (slot / 8 % LINES) + slot % 8 == slot % SLOTS
  {
  }

  /** Two keys share a slot exactly if they agree in bits 3 to 39. */
  lemma SameSlotIff(a: nat, b: nat)
    ensures SameSlot(a, b) <==> a / 8 % 0x20_0000_0000 == b / 8 % 0x20_0000_0000
  {
    LineAndOffset(a);
    LineAndOffset(b);
    SlotOf(a);
    SlotOf(b);
  }

  // ---------------------------------------------------------------- the flat memory

  function WordAt(m: Lines, key: nat): nat {
    if LineOf(key) in m then BigEndian(m[LineOf(key)][Offset(key)..Offset(key) + 8]) else 0
  }

  lemma InLine(line: nat, at: nat)
    requires at < 64
    ensures (64 * line + at) / 64 == line && (64 * line + at) % 64 == at
  {
  }

  /** The number that eight bytes make, the first one in front. */
  function Eight(a: nat, b: nat, c: nat, d: nat, e: nat, f: nat, g: nat, h: nat): nat {
    0x100_0000_0000_0000 * a + 0x1_0000_0000_0000 * b + 0x100_0000_0000 * c
      + 0x1_0000_0000 * d + 0x100_0000 * e + 0x1_0000 * f + 0x100 * g + h
  }

  /** The word at a key is made of the eight bytes from its aligned address on, the first one in front; a word of
      an absent line is 0. */
  lemma WordIsInLine(m: Lines, key: nat, a: nat)
    requires a == key % 0x100_0000_0000 - key % 8 && a / 64 in m
    ensures a % 64 <= 56
    ensures var line, o := m[a / 64], a % 64;
      WordAt(m, key) == 0x100_0000_0000_0000 * (line[o] as int) + 0x1_0000_0000_0000 * (line[o + 1] as int)
        + 0x100_0000_0000 * (line[o + 2] as int) + 0x1_0000_0000 * (line[o + 3] as int) + 0x100_0000 * (line[o + 4] as int)
        + 0x1_0000 * (line[o + 5] as int) + 0x100 * (line[o + 6] as int) + line[o + 7]
  {
    LineAndOffset(key);
    InLine(LineOf(key), Offset(key));
    EightBytes(m[LineOf(key)][Offset(key)..Offset(key) + 8]);
  }

  lemma WordIsAbsent(m: Lines, key: nat)
    requires key % 0x100_0000_0000 / 64 !in m
    ensures WordAt(m, key) == 0
  {
    LineAndOffset(key);
    InLine(LineOf(key), Offset(key) + key % 8);
  }

  lemma OneByteMore(s: seq<Byte>, n: nat)
    requires n < |s|
    ensures BigEndian(s[..n + 1]) == BigEndian(s[..n]) * 256 + s[n]
  {
    assert s[..n + 1][..n] == s[..n];
  }

  lemma EightBytes(s: seq<Byte>)
    requires |s| == 8
    ensures BigEndian(s) == Eight(s[0], s[1], s[2], s[3], s[4], s[5], s[6], s[7])
  {
    OneByteMore(s, 0);
    OneByteMore(s, 1);
    OneByteMore(s, 2);
    OneByteMore(s, 3);
    OneByteMore(s, 4);
    OneByteMore(s, 5);
    OneByteMore(s, 6);
    OneByteMore(s, 7);
    assert s[..8] == s && BigEndian(s[..0]) == 0;
  }

  function Patched(line: Line, o: nat, v: nat): Line
    requires o + 8 <= ATOM_DATA_SIZE
  {
    line[..o] + Bytes(v) + line[o + 8..]
  }

  /** The line that a store to an absent line starts from. */
  function ZeroLine(): Line {
    seq(ATOM_DATA_SIZE, _ => 0)
  }

  function Stored(m: Lines, key: nat, v: nat): Lines {
    var line := if LineOf(key) in m then m[LineOf(key)] else ZeroLine();
    m[LineOf(key) := Patched(line, Offset(key), v)]
  }

  lemma {:induction false} ZeroBytes(s: seq<Byte>)
    requires forall i :: 0 <= i < |s| ==> s[i] == 0
    ensures BigEndian(s) == 0
  {
    if s != [] {
      ZeroBytes(s[..|s| - 1]);
    }
  }

  lemma WordInPatched(line: Line, o: nat, v: nat, p: nat)
    requires v < TWO_64 && o + 8 <= ATOM_DATA_SIZE && p + 8 <= ATOM_DATA_SIZE && (o == p || o + 8 <= p || p + 8 <= o)
    ensures BigEndian(Patched(line, o, v)[p..p + 8]) == if o == p then v else BigEndian(line[p..p + 8])
  {
    var line' := Patched(line, o, v);
    if o == p {
      assert line'[o..o + 8] == Bytes(v);
      BytesRoundTrip(v);
    } else {
      assert line'[p..p + 8] == line[p..p + 8];
    }
  }

  /** A store changes the word in its own slot and no other word of the memory. */
  lemma WordAfterStore(m: Lines, key: nat, v: nat, other: nat)
    requires v < TWO_64
    ensures WordAt(Stored(m, key, v), other) == if key / 8 % 0x20_0000_0000 == other / 8 % 0x20_0000_0000 then v else WordAt(m, other)
  {
    SameSlotIff(key, other);
    if LineOf(key) == LineOf(other) {
      var line := if LineOf(key) in m then m[LineOf(key)] else ZeroLine();
      var o, p := Offset(key), Offset(other);
      WordInPatched(line, o, v, p);
      if LineOf(key) !in m {
        ZeroBytes(line[p..p + 8]);
      }
    }
  }

  // ---------------------------------------------------------------- runs

  datatype Op = Read(thread: nat, key: nat) | Write(key: nat, val: nat)

  predicate WellFormed(op: Op) {
    match op
    case Read(t, _) => t < THREADS
    case Write(_, v) => v < TWO_64
  }

  function After(m: Lines, ops: seq<Op>): Lines {
    if ops == [] then m
    else
      var m', op := After(m, ops[..|ops| - 1]), ops[|ops| - 1];
      match op
      case Read(_, _) => m'
      case Write(key, v) => Stored(m', key, v)
  }

  /** The flat memory of a run: the latest value written to each slot. */
  function Flat(ops: seq<Op>): map<nat, nat> {
    if ops == [] then map[]
    else
      var m, op := Flat(ops[..|ops| - 1]), ops[|ops| - 1];
      match op
      case Read(_, _) => m
      case Write(key, v) => m[key / 8 % SLOTS := v]
  }

  /** The value of the latest write to the slot of key, or the initial word. */
  function LastWrite(ops: seq<Op>, key: nat, init: nat): nat {
    var m, slot := Flat(ops), key / 8 % SLOTS;
    if slot in m then m[slot] else init
  }

  /** After any run every word of the memory is the last one written to its slot. */
  lemma {:induction false} MemoryIsLastWrite(m: Lines, ops: seq<Op>, key: nat)
    requires AllWellFormed(ops)
    ensures WordAt(After(m, ops), key) == LastWrite(ops, key, WordAt(m, key))
  {
    if ops != [] {
      var earlier, op := ops[..|ops| - 1], ops[|ops| - 1];
      MemoryIsLastWrite(m, earlier, key);
      if op.Write? {
        WordAfterStore(After(m, earlier), op.key, op.val, key);
      }
    }
  }

  /** `NullLine` is the dereference of a line pointer that was never set. */
  datatype Outcome = Word(value: nat) | NullLine

  /** Which threads' line pointers are set after a call: a read sets its thread's if it finds its line,
      a write sets that of thread 0. */
  function Prime(p: seq<bool>, m: Lines, op: Op, start: nat): (q: seq<bool>)
    requires |p| == THREADS && WellFormed(op)
    ensures |q| == THREADS
  {
    match op
    case Read(t, key) => if LineOf(key) in m && (p[t] || LineOf(key) != start) then p[t := true] else p
    case Write(key, _) => if LineOf(key) in m then p[0 := true] else p
  }

  predicate AllWellFormed(ops: seq<Op>) {
    forall i :: 0 <= i < |ops| ==> WellFormed(ops[i])
  }

  /** Which are set after a run, from those set before it. */
  function Primed(m: Lines, ops: seq<Op>, start: nat, p: seq<bool>): (q: seq<bool>)
    requires |p| == THREADS && AllWellFormed(ops)
    ensures |q| == THREADS
  {
    if ops == [] then p
    else
      var n := |ops| - 1;
      Prime(Primed(m, ops[..n], start, p), After(m, ops[..n]), ops[n], start)
  }

  /** What the reads of a run return: the last word written to the slot, unless the number of the line
      is the start value and the thread's pointer was never set. */
  function Expected(m: Lines, ops: seq<Op>, start: nat, p: seq<bool>): seq<Outcome>
    requires |p| == THREADS && AllWellFormed(ops)
  {
    if ops == [] then []
    else
      var n := |ops| - 1;
      var earlier, op := ops[..n], ops[n];
      match op
      case Read(t, key) =>
        Expected(m, earlier, start, p)
        + [if LineOf(key) == start && !Primed(m, earlier, start, p)[t] then NullLine
           else Word(LastWrite(earlier, key, WordAt(m, key)))]
      case Write(_, _) => Expected(m, earlier, start, p)
  }

  /** With a start value that no line number equals, or no read of that line, every read returns a
      word. */
  lemma {:induction false} AllWords(m: Lines, ops: seq<Op>, start: nat, p: seq<bool>)
    requires |p| == THREADS && AllWellFormed(ops)
    requires start >= LINES || forall i :: 0 <= i < |ops| && ops[i].Read? ==> LineOf(ops[i].key) != start
    ensures forall i :: 0 <= i < |Expected(m, ops, start, p)| ==> Expected(m, ops, start, p)[i].Word?
  {
    if ops != [] {
      AllWords(m, ops[..|ops| - 1], start, p);
    }
  }

  /** A first read of line 0, when 0 is the start value, dereferences no line. */
  lemma FirstReadOfLineZero(m: Lines, thread: nat, key: nat)
    requires thread < THREADS && LineOf(key) == 0
    ensures Expected(m, [Read(thread, key)], 0, seq(THREADS, _ => false)) == [NullLine]
  {
    assert [Read(thread, key)][..0] == [];
  }

  // ---------------------------------------------------------------- the byte loops

  /** get_eight_byte. */
  method GetEightByte(data: Line, key: nat) returns (val: Word64)
    ensures val == BigEndian(data[Offset(key)..Offset(key) + 8])
  {
    var mask := key / 8 % 8 * 8;
    var v: nat := 0;
    for i := 0 to 8
      invariant v == BigEndian(data[mask..mask + i])
    {
      assert data[mask..mask + i + 1][..i] == data[mask..mask + i];
      v := v * 256 + data[mask + i];
    }
    BigEndianBound(data[mask..mask + 8]);
    val := v;
  }

  /** write_eight_byte. */
  method WriteEightByte(a: Atom, key: nat, val: Word64)
    modifies a`data
    ensures a.data == Patched(old(a.data), Offset(key), val)
  {
    var mask := key / 8 % 8 * 8;
    var v: nat := val;
    var i := 7;
    while i >= 0
      invariant -1 <= i <= 7
      invariant v == Drop(val, 7 - i)
      invariant forall j :: 0 <= j < ATOM_DATA_SIZE ==>
        a.data[j] == if mask + i < j < mask + 8 then Bytes(val)[j - mask] else old(a.data)[j]
    {
      a.data := a.data[mask + i := v % 256];
      v := v / 256;
      i := i - 1;
    }
  }

  // ---------------------------------------------------------------- the port

  /** The start value -1 of last_addr, as an unsigned 64-bit number. */
  const NO_LINE := TWO_64 - 1

  /** Which line pointers are set. */
  ghost function SetOf(line: seq<Atom?>): (p: seq<bool>)
    ensures |p| == |line|
  {
    seq(|line|, i requires 0 <= i < |line| => line[i] != null)
  }

  /** A line pointer is either unset, with the start value beside it, or the line of the index m
      whose number stands beside it: it is never stale. */
  ghost predicate NeverStale(lastAddr: seq<nat>, line: seq<Atom?>, start: nat, m: map<nat, Atom>) {
    && |lastAddr| == |line| == THREADS
    && start in {0, NO_LINE}
    && forall t :: 0 <= t < THREADS ==>
         if line[t] == null then lastAddr[t] == start
         else lastAddr[t] in m && line[t] == m[lastAddr[t]]
  }

  /** write_64b_call first forgets the line it is about to write. An entry that was forgotten
      without the line being in the index is as it was; one whose line is there is set again. */
  lemma NeverStaleForgotten(lastAddr: seq<nat>, line: seq<Atom?>, start: nat, m: map<nat, Atom>, k: nat)
    requires NeverStale(lastAddr, line, start, m) && k < LINES
    ensures var forgot := if lastAddr[0] == k then lastAddr[0 := 0] else lastAddr;
      if k in m then NeverStale(forgot[0 := k], line[0 := m[k]], start, m) else NeverStale(forgot, line, start, m)
  {
  }

  class Port {
    var sysMem: OrderedIndex
    var lastAddr: seq<nat>
    var line: seq<Atom?>

    /** The start value of lastAddr. */
    ghost var start: nat
    /** What the lines of the index hold. */
    ghost var lines: Lines

    ghost predicate Backed()
      reads `sysMem, `lines, sysMem, sysMem.contents.Values
    {
      var m := sysMem.contents;
      && lines.Keys == m.Keys
      && forall k :: k in m ==> m[k].key == k && m[k].data == lines[k]
    }

    ghost predicate Fresh()
      reads `sysMem, `lastAddr, `line, `start, sysMem
    {
      NeverStale(lastAddr, line, start, sysMem.contents)
    }

    ghost predicate Valid()
      reads this, sysMem, sysMem.root, sysMem.root.Repr, sysMem.contents.Values
    {
      sysMem.Valid() && Backed() && Fresh()
    }

    /** init_jbus_model_call, over a memory image that was already read in. */
    constructor (mem: OrderedIndex, oram: bool, ghost image: Lines)
      requires mem.Valid() && image.Keys == mem.contents.Keys
      requires forall k :: k in image ==> mem.contents[k].key == k && mem.contents[k].data == image[k]
      ensures Valid() && sysMem == mem && lines == image && start == (if oram then NO_LINE else 0)
      ensures SetOf(line) == seq(THREADS, _ => false)
    {
      sysMem, lines := mem, image;
      start := if oram then NO_LINE else 0;
      lastAddr := seq(THREADS, _ => if oram then NO_LINE else 0);
      line := seq(THREADS, _ => null);
    }

    method ReadLine(data: Atom, key: nat) returns (v: nat)
      requires Backed() && LineOf(key) in sysMem.contents && data == sysMem.contents[LineOf(key)]
      ensures v == WordAt(lines, key)
    {
      v := GetEightByte(data.data, key);
    }

    /** The cached copy of the pointer becomes the line that was just found. */
    method Cache(thread: nat, data: Atom, maskAddr: nat)
      requires Fresh() && thread < THREADS && maskAddr in sysMem.contents && data == sysMem.contents[maskAddr]
      modifies `lastAddr, `line
      ensures Fresh() && SetOf(line) == SetOf(old(line))[thread := true]
    {
      line := line[thread := data];
      lastAddr := lastAddr[thread := maskAddr];
    }

    /** access_sys_call when the thread's cached line is another one. */
    method Miss(thread: nat, key: nat) returns (v: nat)
      requires Valid() && thread < THREADS
      modifies `lastAddr, `line
      ensures Backed() && Fresh() && v == WordAt(lines, key)
      ensures SetOf(line) == if LineOf(key) in lines then SetOf(old(line))[thread := true] else SetOf(old(line))
    {
      var data := sysMem.Find(LineOf(key));
      if data != null {
        Cache(thread, data, LineOf(key));
        v := ReadLine(data, key);
      } else {
        v := 0;
      }
    }

    /** access_sys_call when the number beside the thread's line pointer is the one asked for. */
    method Match(thread: nat, key: nat) returns (r: Outcome)
      requires Backed() && Fresh() && thread < THREADS && lastAddr[thread] == LineOf(key)
      ensures r == if line[thread] == null then NullLine else Word(WordAt(lines, key))
    {
      if line[thread] == null {
        r := NullLine;
      } else {
        var v := ReadLine(line[thread], key);
        r := Word(v);
      }
    }

    /** access_sys_call, and read_64b_call as the case of thread 0. */
    method Access(thread: nat, key: nat) returns (r: Outcome)
      requires Valid() && thread < THREADS
      modifies `lastAddr, `line
      ensures Valid()
      ensures r == if old(line[thread]) == null && LineOf(key) == start then NullLine else Word(WordAt(lines, key))
      ensures SetOf(line) == Prime(SetOf(old(line)), lines, Read(thread, key), start)
    {
      var maskAddr := key / 64 % LINES;
      if lastAddr[thread] == maskAddr {
        r := Match(thread, key);
      } else {
        var v := Miss(thread, key);
        r := Word(v);
      }
    }

    /** write_64b_call into a line of the index. */
    method WriteHit(data: Atom, key: nat, val: Word64)
      requires Backed() && LineOf(key) in sysMem.contents && data == sysMem.contents[LineOf(key)]
      modifies data`data, `lines
      ensures Backed() && lines == Stored(old(lines), key, val)
    {
      WriteEightByte(data, key, val);
      lines := Stored(lines, key, val);
    }

    /** The cleared line with the word in it. */
    static method NewLine(key: nat, val: Word64) returns (atom: Atom)
      ensures fresh(atom) && atom.key == LineOf(key) && atom.data == Patched(ZeroLine(), Offset(key), val)
    {
      atom := new Atom(LineOf(key), ZeroLine());
      WriteEightByte(atom, key, val);
    }

    /** write_64b_call, filing a new line. */
    method File(atom: Atom, key: nat, val: Word64)
      requires sysMem.Valid() && Backed() && LineOf(key) !in sysMem.contents
      requires atom.key == LineOf(key) && atom.data == Patched(ZeroLine(), Offset(key), val)
      modifies sysMem, sysMem.root.Repr, `lines
      ensures sysMem.Valid() && fresh(sysMem.root.Repr - old(sysMem.root.Repr))
      ensures Backed() && lines == Stored(old(lines), key, val)
      ensures sysMem.contents == old(sysMem.contents)[LineOf(key) := atom]
    {
      sysMem.Insert(atom);
      lines := Stored(lines, key, val);
    }

    /** write_64b_call of a line that is not in the index yet. */
    method WriteNew(key: nat, val: Word64)
      requires Valid() && LineOf(key) !in sysMem.contents
      modifies sysMem, sysMem.root.Repr, `lines
      ensures Valid() && lines == Stored(old(lines), key, val)
      ensures fresh(sysMem.root.Repr - old(sysMem.root.Repr))
      ensures fresh(sysMem.contents.Values - old(sysMem.contents.Values))
    {
      var atom := NewLine(key, val);
      File(atom, key, val);
    }

    /** write_64b_call, dropping thread 0's copy of the line that is about to change. */
    method Forget(maskAddr: nat)
      requires |lastAddr| == THREADS
      modifies `lastAddr
      ensures lastAddr == if old(lastAddr)[0] == maskAddr then old(lastAddr)[0 := 0] else old(lastAddr)
    {
      if lastAddr[0] == maskAddr {
        lastAddr := lastAddr[0 := 0];
      }
    }

    /** write_64b_call when the line was found. */
    method StoreHit(data: Atom, key: nat, val: Word64)
      requires sysMem.Valid() && Backed() && LineOf(key) in sysMem.contents && data == sysMem.contents[LineOf(key)]
      requires |lastAddr| == |line| == THREADS
      requires NeverStale(lastAddr[0 := LineOf(key)], line[0 := data], start, sysMem.contents)
      modifies `lastAddr, `line, `lines, data`data
      ensures Valid() && lines == Stored(old(lines), key, val) && SetOf(line) == SetOf(old(line))[0 := true]
    {
      line := line[0 := data];
      lastAddr := lastAddr[0 := LineOf(key)];
      WriteHit(data, key, val);
    }

    /** write_64b_call. */
    method Write(key: nat, val: Word64)
      requires Valid()
      modifies `lastAddr, `line, `lines, sysMem, sysMem.root.Repr, sysMem.contents.Values
      ensures Valid() && lines == Stored(old(lines), key, val)
      ensures SetOf(line) == Prime(SetOf(old(line)), old(lines), Op.Write(key, val), start)
      ensures fresh(sysMem.root.Repr - old(sysMem.root.Repr))
      ensures fresh(sysMem.contents.Values - old(sysMem.contents.Values))
    {
      NeverStaleForgotten(lastAddr, line, start, sysMem.contents, LineOf(key));
      Forget(LineOf(key));
      var data := sysMem.Find(LineOf(key));
      if data != null {
        StoreHit(data, key, val);
      } else {
        WriteNew(key, val);
      }
    }

    /** One call from the simulator. */
    method Step(op: Op) returns (r: Outcome)
      requires Valid() && WellFormed(op)
      modifies `lastAddr, `line, `lines, sysMem, sysMem.root.Repr, sysMem.contents.Values
      ensures Valid() && lines == After(old(lines), [op]) && SetOf(line) == Prime(SetOf(old(line)), old(lines), op, start)
      ensures op.Read? ==> r == if !SetOf(old(line))[op.thread] && LineOf(op.key) == start then NullLine else Word(WordAt(old(lines), op.key))
      ensures fresh(sysMem.root.Repr - old(sysMem.root.Repr))
      ensures fresh(sysMem.contents.Values - old(sysMem.contents.Values))
    {
      assert [op][..0] == [];
      match op
      case Read(thread, key) =>
        r := Access(thread, key);
      case Write(key, val) =>
        Write(key, val);
        r := Word(0);
    }

    /** The state after a run from a memory m with the line pointers p set, and what its reads
        returned. */
    ghost predicate Ran(m: Lines, p: seq<bool>, ops: seq<Op>, results: seq<Outcome>)
      requires |p| == THREADS && AllWellFormed(ops)
      reads this, sysMem, sysMem.root, sysMem.root.Repr, sysMem.contents.Values
    {
      && Valid() && lines == After(m, ops) && SetOf(line) == Primed(m, ops, start, p)
      && results == Expected(m, ops, start, p)
    }

    /** One more call. */
    method Continue(ghost m: Lines, ghost p: seq<bool>, ghost ops: seq<Op>, results: seq<Outcome>, op: Op, ghost all: seq<Op>)
      returns (more: seq<Outcome>)
      requires |p| == THREADS && AllWellFormed(ops) && WellFormed(op) && all == ops + [op] && Ran(m, p, ops, results)
      modifies `lastAddr, `line, `lines, sysMem, sysMem.root.Repr, sysMem.contents.Values
      ensures AllWellFormed(all) && Ran(m, p, all, more)
      ensures fresh(sysMem.root.Repr - old(sysMem.root.Repr))
      ensures fresh(sysMem.contents.Values - old(sysMem.contents.Values))
    {
      RunStep(m, ops, op, all);
      var r := Step(op);
      more := if op.Read? then results + [r] else results;
    }

    /** Any interleaving of reads by all threads and writes: every read returns the last word written
        to its slot, or the word that was loaded there, or 0; the one exception is a read of the line
        whose number is the start value by a thread that never found a line. */
    method Replay(ops: seq<Op>) returns (results: seq<Outcome>)
      requires Valid() && AllWellFormed(ops)
      modifies `lastAddr, `line, `lines, sysMem, sysMem.root.Repr, sysMem.contents.Values
      ensures Valid() && lines == After(old(lines), ops) && SetOf(line) == Primed(old(lines), ops, start, SetOf(old(line)))
      ensures results == Expected(old(lines), ops, start, SetOf(old(line)))
      ensures fresh(sysMem.root.Repr - old(sysMem.root.Repr))
      ensures fresh(sysMem.contents.Values - old(sysMem.contents.Values))
    {
      results := ReplayOn(lines, SetOf(line), [], [], ops);
      assert [] + ops == ops;
    }

    method ReplayOn(ghost m: Lines, ghost p: seq<bool>, ghost done: seq<Op>, results: seq<Outcome>, ops: seq<Op>)
      returns (more: seq<Outcome>)
      requires |p| == THREADS && AllWellFormed(done) && AllWellFormed(ops) && Ran(m, p, done, results)
      modifies `lastAddr, `line, `lines, sysMem, sysMem.root.Repr, sysMem.contents.Values
      ensures AllWellFormed(done + ops) && Ran(m, p, done + ops, more)
      ensures fresh(sysMem.root.Repr - old(sysMem.root.Repr))
      ensures fresh(sysMem.contents.Values - old(sysMem.contents.Values))
      decreases |ops|
    {
      if ops == [] {
        AppendNothing(done, ops);
        return results;
      }
      ghost var further := done + [ops[0]];
      FirstThenRest(done, ops);
      var next := Continue(m, p, done, results, ops[0], further);
      more := ReplayOn(m, p, further, next, ops[1..]);
    }
  }

  lemma FirstThenRest(done: seq<Op>, ops: seq<Op>)
    requires AllWellFormed(ops) && ops != []
    ensures WellFormed(ops[0]) && AllWellFormed(ops[1..]) && (done + [ops[0]]) + ops[1..] == done + ops
  {
  }

  lemma RunStep(m: Lines, ops: seq<Op>, op: Op, all: seq<Op>)
    requires AllWellFormed(ops) && WellFormed(op) && all == ops + [op]
    ensures AllWellFormed(all) && all[..|all| - 1] == ops && After(m, all) == After(After(m, ops), [op])
    ensures op.Read? ==> WordAt(After(m, ops), op.key) == LastWrite(ops, op.key, WordAt(m, op.key))
  {
    assert all[..|all| - 1] == ops;
    assert [op][..0] == [];
    MemoryIsLastWrite(m, ops, op.key);
  }
}
