/** The loops of l2warm.cc that write 64 bytes into the data array and read them back. */
module CacheArray {
  import opened LinearCode
  import opened HammingCode
  import opened EccWords
  import opened CacheLine
  import opened Words
  import opened Sequences

  // ---------------------------------------------------------------- numbers and bits of a line

  lemma {:induction false} BitsOfConcat(a: seq<Byte>, b: seq<Byte>, m: nat, n: nat, e: nat)
    requires e == 8 && m == 8 * |a| && n == 8 * |b|
    ensures BitsOf(BigEndian(a + b), m + n) == BitsOf(BigEndian(b), n) + BitsOf(BigEndian(a), m)
    decreases |b|
  {
    if b == [] {
      assert a + b == a;
      assert BitsOf(BigEndian(b), n) + BitsOf(BigEndian(a), m) == BitsOf(BigEndian(a), m);
    } else {
      var c, last := b[..|b| - 1], b[|b| - 1];
      BitsOfConcat(a, c, m, n - e, e);
      Regroup(a, c, [last]);
      assert b == c + [last];
      BitsOfLast(a + b, a + c, last, e, m + n, m + n - e);
      BitsOfLast(b, c, last, e, n, n - e);
      Regroup(BitsOf(last, e), BitsOf(BigEndian(c), n - e), BitsOf(BigEndian(a), m));
    }
  }

  lemma BitsOfLast(s: seq<Byte>, init: seq<Byte>, last: Byte, e: nat, k: nat, rest: nat)
    requires e == 8 && k == e + rest && s == init + [last]
    ensures BitsOf(BigEndian(s), k) == BitsOf(last, e) + BitsOf(BigEndian(init), rest)
  {
    BitsOfBytes(s, init, last, e, rest);
  }

  /** The bits of sixteen bytes are those of their four words, the last word first. */
  lemma BitsOfQuad(line: Quad, p: seq<Byte>, q: seq<Byte>, r: seq<Byte>, t: seq<Byte>, n: nat)
    requires n == 32 && line == ((p + q) + r) + t && |p| == |q| == |r| == |t| == 4
    ensures BitsOf(BigEndian(line), n + n + n + n)
         == BitsOf(BigEndian(t), n) + (BitsOf(BigEndian(r), n) + (BitsOf(BigEndian(q), n) + BitsOf(BigEndian(p), n)))
  {
    BitsOfConcat(p, q, n, n, n / 4);
    BitsOfConcat(p + q, r, n + n, n, n / 4);
    BitsOfConcat((p + q) + r, t, n + n + n, n, n / 4);
  }

  lemma PowerOfByte(i: nat)
    ensures Power(8 * (i + 1)) == 256 * Power(8 * i)
  {
    var n := 8 * i;
    assert Power(n + 1) == 2 * Power(n);
    assert Power(n + 2) == 2 * Power(n + 1);
    assert Power(n + 3) == 2 * Power(n + 2);
    assert Power(n + 4) == 2 * Power(n + 3);
    assert Power(n + 5) == 2 * Power(n + 4);
    assert Power(n + 6) == 2 * Power(n + 5);
    assert Power(n + 7) == 2 * Power(n + 6);
    assert Power(n + 8) == 2 * Power(n + 7);
  }

  lemma {:induction false} BigEndianBelow(s: seq<Byte>)
    ensures BigEndian(s) < Power(8 * |s|)
  {
    if s != [] {
      BigEndianBelow(s[..|s| - 1]);
      PowerOfByte(|s| - 1);
    }
  }

  /** Bytes shifted into a variable that was never initialised: its old value ends up above the
      bits that are looked at. */
  method Gather(bytes: seq<Byte>) returns (fbyte: int)
    ensures BitsOf(fbyte, 8 * |bytes|) == BitsOf(BigEndian(bytes), 8 * |bytes|)
  {
    var start: int := *;
    fbyte := start;
    assert bytes[..0] == [];
    for i := 0 to |bytes|
      invariant fbyte == start * Power(8 * i) + BigEndian(bytes[..i])
    {
      GatherStep(start, bytes, i);
      fbyte := fbyte * 256 + bytes[i];
    }
    assert bytes[..|bytes|] == bytes;
    JunkIsAbove(start, bytes, 8 * |bytes|);
  }

  lemma GatherStep(junk: int, bytes: seq<Byte>, i: nat)
    requires i < |bytes|
    ensures (junk * Power(8 * i) + BigEndian(bytes[..i])) * 256 + bytes[i]
         == junk * Power(8 * (i + 1)) + BigEndian(bytes[..i + 1])
  {
    PowerOfByte(i);
    assert bytes[..i + 1][..i] == bytes[..i];
    Shifted(junk, Power(8 * i));
  }

  lemma Shifted(x: int, p: int)
    ensures (x * p) * 256 == x * (256 * p)
  {
  }

  lemma JunkIsAbove(junk: int, bytes: seq<Byte>, n: nat)
    requires n == 8 * |bytes|
    ensures BitsOf(junk * Power(n) + BigEndian(bytes), n) == BitsOf(BigEndian(bytes), n)
  {
    BigEndianBelow(bytes);
    BitsOfJoined(junk, BigEndian(bytes), n, 0);
    AppendNothing(BitsOf(BigEndian(bytes), n), BitsOf(junk, 0));
  }

  // ---------------------------------------------------------------- adjust_data

  /** Only the bits from lo to hi have changed, to v. */
  ghost predicate Replaced(before: Bits, after: Bits, lo: nat, hi: nat, v: Bits) {
    && lo <= hi <= |before| == |after|
    && after[..lo] == before[..lo] && after[lo..hi] == v && after[hi..] == before[hi..]
  }

  method CopyBits(unpk: array<bool>, lo: nat, src: seq<bool>)
    requires lo + |src| <= unpk.Length
    modifies unpk
    ensures Replaced(old(unpk[..]), unpk[..], lo, lo + |src|, src)
  {
    for i := 0 to |src|
      invariant unpk[..lo] == old(unpk[..lo]) && unpk[lo..lo + i] == src[..i]
      invariant unpk[lo + |src|..] == old(unpk[lo + |src|..])
    {
      unpk[lo + i] := src[i];
      assert unpk[lo..lo + i + 1] == unpk[lo..lo + i] + [src[i]];
      assert src[..i + 1] == src[..i] + [src[i]];
    }
    assert src[..|src|] == src;
  }

  lemma FlipInside(a: Bits, b: Bits, lo: nat, hi: nat, v: Bits, n: nat)
    requires Replaced(a, b, lo, hi, v) && n < hi - lo
    ensures Replaced(a, Flip(b, lo + n), lo, hi, Flip(v, n))
  {
    var c := Flip(b, lo + n);
    assert c[..lo] == b[..lo] && c[hi..] == b[hi..];
    assert c[lo..hi] == b[lo..hi][n := !b[lo + n]];
  }

  /** `error_enject` on a buffer of bits. */
  method Inject(unpk: array<bool>, low: nat, err: bool, random: nat)
    requires low + 38 <= unpk.Length
    modifies unpk
    ensures unpk[..] == if err then Flip(old(unpk[..]), low + Victim(random)) else old(unpk[..])
  {
    if err {
      var num := random % 256 % 38;
      if num == 6 {
        num := 0;
      }
      unpk[low + num] := !unpk[low + num];
    }
  }

  /** One segment: data bits, check bits, perhaps an error. */
  method Place(ghost c: Coder, ghost bytes: seq<Byte>, unpk: array<bool>, low: nat, data: seq<bool>, ecc: nat, err: bool, random: nat)
    requires Encodes(c) && |bytes| == 4 && low + 39 <= unpk.Length
    requires data == c.code(bytes).data && ecc == c.code(bytes).check
    modifies unpk
    ensures Replaced(old(unpk[..]), unpk[..], low, low + 39, Struck(c.code(bytes).segment, err, random))
  {
    ghost var before := unpk[..];
    CopyBits(unpk, low + 7, data);
    ghost var half := unpk[..];
    var check := Unpack(ecc, 7);
    CopyBits(unpk, low, check[..]);
    ghost var full := unpk[..];
    SegmentParts(c, bytes, check[..]);
    ReplacedBefore(before, half, full, low, low + 7, low + 39, check[..], data);
    Inject(unpk, low, err, random);
    FlipInside(before, full, low, low + 39, c.code(bytes).segment, Victim(random));
  }

  lemma SegmentParts(c: Coder, bytes: seq<Byte>, check: Bits)
    requires Encodes(c) && |bytes| == 4 && check == BitsOf(c.code(bytes).check, 7)
    ensures check + c.code(bytes).data == c.code(bytes).segment
  {
    CodedIs(c, bytes);
    BitsOfValue(Check(L32(), c.code(bytes).data));
  }

  function Struck(s: Bits, err: bool, random: nat): (t: Bits)
    requires |s| == 39
    ensures |t| == 39
  {
    if err then Flip(s, Victim(random)) else s
  }

  lemma ReplacedBefore(a: Bits, b: Bits, c: Bits, lo: nat, mid: nat, hi: nat, u: Bits, v: Bits)
    requires Replaced(a, b, mid, hi, v) && Replaced(b, c, lo, mid, u)
    ensures Replaced(a, c, lo, hi, u + v)
  {
    assert c[mid..] == b[mid..];
    assert c[..lo] == b[..lo] && b[..lo] == b[..mid][..lo] && a[..lo] == a[..mid][..lo];
    assert c[lo..hi] == c[lo..mid] + c[mid..hi];
    assert c[mid..hi] == c[mid..][..hi - mid] && b[mid..hi] == b[mid..][..hi - mid];
    assert c[hi..] == c[mid..][hi - mid..] && b[hi..] == b[mid..][hi - mid..];
  }

  lemma FourPlaced(a: Bits, a0: Bits, a1: Bits, a2: Bits, a3: Bits, s0: Bits, s1: Bits, s2: Bits, s3: Bits)
    requires |a| == WORD && Replaced(a, a0, 117, 156, s0) && Replaced(a0, a1, 78, 117, s1)
    requires Replaced(a1, a2, 39, 78, s2) && Replaced(a2, a3, 0, 39, s3)
    ensures a3 == Join(s0, s1, s2, s3)
  {
    ReplacedBefore(a, a0, a1, 78, 117, 156, s1, s0);
    ReplacedBefore(a, a1, a2, 39, 78, 156, s2, s1 + s0);
    ReplacedBefore(a, a2, a3, 0, 39, 156, s3, s2 + (s1 + s0));
    assert a3[0..156] == a3;
    Regroup(s3, s2, s1 + s0);
    Regroup(s3 + s2, s1, s0);
  }

  lemma FlipLow(a: Bits, b: Bits, n: nat)
    requires n < |a|
    ensures Flip(a + b, n) == Flip(a, n) + b
  {
  }

  lemma FlipHigh(a: Bits, b: Bits, n: nat)
    requires n < |b|
    ensures Flip(a + b, |a| + n) == a + Flip(b, n)
  {
  }

  lemma FlipSegment(s0: Bits, s1: Bits, s2: Bits, s3: Bits, k: nat, n: nat)
    requires |s0| == |s1| == |s2| == |s3| == 39 && k < 4 && n < 39
    ensures |Join(s0, s1, s2, s3)| == WORD
    ensures Flip(Join(s0, s1, s2, s3), 39 * (3 - k) + n)
      == Join(if k == 0 then Flip(s0, n) else s0, if k == 1 then Flip(s1, n) else s1,
              if k == 2 then Flip(s2, n) else s2, if k == 3 then Flip(s3, n) else s3)
  {
    var r := s3 + s2;
    var q := r + s1;
    if k == 0 {
      FlipHigh(q, s0, n);
    } else if k == 1 {
      FlipLow(q, s0, 78 + n);
      FlipHigh(r, s1, n);
    } else if k == 2 {
      FlipLow(q, s0, 39 + n);
      FlipLow(r, s1, 39 + n);
      FlipHigh(s3, s2, n);
    } else {
      FlipLow(q, s0, n);
      FlipLow(r, s1, n);
      FlipLow(s3, s2, n);
    }
  }

  /** One byte of the word that is stored, from n of its bits. */
  method PackByte(w: seq<bool>, at: nat, n: nat) returns (byte: nat)
    requires at + n <= |w|
    ensures byte == Value(w[at..at + n])
  {
    byte := 0;
    for j := 0 to n
      invariant byte == Value(w[at..at + j])
    {
      assert w[at..at + j + 1] == w[at..at + j] + [w[at + j]];
      ValueOfLast(w[at..at + j], w[at + j]);
      if w[at + j] {
        byte := byte + Power(j);
      }
    }
  }

  /** Bytes of eight bits and a last one of four. */
  method PackWord(w: seq<bool>) returns (slam: seq<nat>)
    requires |w| % 8 == 4
    ensures slam == Packed(w)
  {
    slam := [];
    var n := |w| / 8;
    assert w[0..] == w;
    for i := 0 to n
      invariant slam + Packed(w[8 * i..]) == Packed(w)
    {
      var byte := PackByte(w, 8 * i, 8);
      PackedStep(w, 8 * i);
      Regroup(slam, [byte], Packed(w[8 * i + 8..]));
      slam := slam + [byte];
    }
    var last := PackByte(w, 8 * n, 4);
    PackedEnd(w, 8 * n);
    slam := slam + [last];
  }

  lemma PackedEnd(w: Bits, at: nat)
    requires at < |w| <= at + 8
    ensures Packed(w[at..]) == [Value(w[at..|w|])]
  {
    assert w[at..] == w[at..|w|];
  }

  lemma PackedStep(w: Bits, at: nat)
    requires at + 8 < |w|
    ensures Packed(w[at..]) == [Value(w[at..at + 8])] + Packed(w[at + 8..])
  {
    assert w[at..][..8] == w[at..at + 8] && w[at..][8..] == w[at + 8..];
  }

  lemma DataOfTemp(c: Coder, line: Quad, temp: Bits, n: nat)
    requires Encodes(c) && n == 32 && temp == BitsOf(BigEndian(line), n + n + n + n)
    ensures |temp| == 128
    ensures temp[96..128] == c.code(WordOf(line, 0)).data && temp[64..96] == c.code(WordOf(line, 1)).data
    ensures temp[32..64] == c.code(WordOf(line, 2)).data && temp[0..32] == c.code(WordOf(line, 3)).data
  {
    var p, q, r, t := WordOf(line, 0), WordOf(line, 1), WordOf(line, 2), WordOf(line, 3);
    FourQuarters(line);
    BitsOfQuad(line, p, q, r, t, n);
    CodedData(c, p, n);
    CodedData(c, q, n);
    CodedData(c, r, n);
    CodedData(c, t, n);
    FourWords(temp, c.code(p).data, c.code(q).data, c.code(r).data, c.code(t).data);
  }

  lemma CodedData(c: Coder, b: seq<Byte>, n: nat)
    requires Encodes(c) && |b| == 4 && n == 32
    ensures c.code(b).data == BitsOf(BigEndian(b), n)
  {
    CodedIs(c, b);
  }

  lemma FourWords(v: Bits, a: Bits, b: Bits, c: Bits, d: Bits)
    requires |a| == |b| == |c| == |d| == 32 && v == d + (c + (b + a))
    ensures v[96..128] == a && v[64..96] == b && v[32..64] == c && v[0..32] == d
  {
    var r := b + a;
    var q := c + r;
    assert v[32..64] == q[0..32] && v[64..96] == q[32..64] && v[96..128] == q[64..96];
    assert q[32..64] == r[0..32] && q[64..96] == r[32..64];
  }

  /** The stored segments before `uncorrect_err` strikes. */
  ghost function Once(c: Coder, line: Quad, k: nat, err: bool, r: Rolls): (s: Bits)
    requires Encodes(c) && k < 4
    ensures |s| == 39
  {
    Struck(Segment(c, line, k), err, RollOf(r, k))
  }

  lemma StruckOnce(c: Coder, line: Quad, r: Rolls, err: bool, uncorrect: bool, k: nat)
    requires Encodes(c) && k < 4
    ensures Noisy(Segment(c, line, k), k, r, err, uncorrect)
      == if err && uncorrect && k == Twice(r) then Flip(Once(c, line, k, err, r), Victim(r.again)) else Once(c, line, k, err, r)
  {
  }

  lemma StruckTwice(c: Coder, line: Quad, r: Rolls, err: bool, uncorrect: bool, w: Bits)
    requires Encodes(c) && w == OnceLine(c, line, err, r)
    ensures |w| == WORD
    ensures NoisyLine(c, line, r, err, uncorrect)
      == if err && uncorrect then Flip(w, 39 * (3 - Twice(r)) + Victim(r.again)) else w
  {
    StruckOnce(c, line, r, err, uncorrect, 0);
    StruckOnce(c, line, r, err, uncorrect, 1);
    StruckOnce(c, line, r, err, uncorrect, 2);
    StruckOnce(c, line, r, err, uncorrect, 3);
    FlipSegment(Once(c, line, 0, err, r), Once(c, line, 1, err, r), Once(c, line, 2, err, r), Once(c, line, 3, err, r), Twice(r), Victim(r.again));
  }

  ghost predicate ChecksOf(c: Coder, l1line: Quad, ecc: seq<nat>) {
    && |ecc| == 4
    && ecc[0] == c.code(WordOf(l1line, 0)).check && ecc[1] == c.code(WordOf(l1line, 1)).check
    && ecc[2] == c.code(WordOf(l1line, 2)).check && ecc[3] == c.code(WordOf(l1line, 3)).check
  }

  ghost function OnceLine(c: Coder, line: Quad, err: bool, r: Rolls): Bits
    requires Encodes(c)
  {
    Join(Once(c, line, 0, err, r), Once(c, line, 1, err, r), Once(c, line, 2, err, r), Once(c, line, 3, err, r))
  }

  /** The four segments in their places, each perhaps with an error. */
  method PlaceLine(ghost c: Coder, l1line: Quad, ecc: seq<nat>, err: bool, r: Rolls) returns (unpk: array<bool>)
    requires Encodes(c) && ChecksOf(c, l1line, ecc)
    ensures fresh(unpk) && unpk.Length == WORD && unpk[..] == OnceLine(c, l1line, err, r)
  {
    var bits := UnpackBytes(l1line, 8);
    var temp := bits[..];
    DataOfTemp(c, l1line, temp, 32);
    unpk := new bool[WORD];
    ghost var a := unpk[..];
    Place(c, WordOf(l1line, 0), unpk, 117, temp[96..128], ecc[0], err, r.first);
    ghost var a0 := unpk[..];
    Place(c, WordOf(l1line, 1), unpk, 78, temp[64..96], ecc[1], err, r.second);
    ghost var a1 := unpk[..];
    Place(c, WordOf(l1line, 2), unpk, 39, temp[32..64], ecc[2], err, r.third);
    ghost var a2 := unpk[..];
    Place(c, WordOf(l1line, 3), unpk, 0, temp[0..32], ecc[3], err, r.fourth);
    FourPlaced(a, a0, a1, a2, unpk[..], Once(c, l1line, 0, err, r), Once(c, l1line, 1, err, r), Once(c, l1line, 2, err, r), Once(c, l1line, 3, err, r));
  }

  /** Sixteen bytes and their check bits become the twenty bytes of a word of the data array. */
  method AdjustData(ghost c: Coder, l1line: Quad, ecc: seq<nat>, err: bool, uncorrect: bool, r: Rolls) returns (slam: seq<nat>)
    requires Encodes(c) && ChecksOf(c, l1line, ecc)
    ensures slam == Packed(NoisyLine(c, l1line, r, err, uncorrect))
  {
    var unpk := PlaceLine(c, l1line, ecc, err, r);
    ghost var w := unpk[..];
    StruckTwice(c, l1line, r, err, uncorrect, w);
    if uncorrect {
      Inject(unpk, 39 * (3 - Twice(r)), err, r.again);
    }
    slam := PackWord(unpk[..]);
  }

  // ---------------------------------------------------------------- the data array

  /** A word of the data array. */
  datatype Slot = Slot(bank: nat, sub: nat, way: nat, index: nat)

  type Line64 = s: seq<Byte> | |s| == 64 witness seq(64, _ => 0)

  function Block(data: Line64, n: nat): Quad
    requires n < 4
  {
    data[16 * n..16 * n + 16]
  }

  /** The twenty bytes stored for the n-th sixteen bytes of a line. */
  ghost function StoredBlock(c: Coder, data: Line64, n: nat, rolls: seq<Rolls>, err: bool, uncorrect: bool): seq<nat>
    requires Encodes(c) && n < 4 && |rolls| == 4
  {
    Packed(NoisyLine(c, Block(data, n), rolls[n], err, uncorrect))
  }

  /** The sub-bank of the n-th block when the first one goes to `subbank`. */
  function SubOf(subbank: nat, n: nat): nat {
    3 - (subbank + n) % 4
  }

  predicate ProbeBlock(n: nat) {
    true
  }

  /** `words` are the four words stored for a line; `ProbeBlock` asks for one of them. */
  ghost predicate StoredAs(c: Coder, data: Line64, rolls: seq<Rolls>, err: bool, uncorrect: bool, words: seq<seq<nat>>)
    requires Encodes(c) && |rolls| == 4
  {
    |words| == 4 && forall n {:trigger ProbeBlock(n)} :: 0 <= n < 4 ==> words[n] == StoredBlock(c, data, n, rolls, err, uncorrect)
  }

  lemma StoredWords(c: Coder, data: Line64, rolls: seq<Rolls>, err: bool, uncorrect: bool) returns (words: seq<seq<nat>>)
    requires Encodes(c) && |rolls| == 4
    ensures StoredAs(c, data, rolls, err, uncorrect, words)
  {
    words := seq(4, n requires 0 <= n < 4 => StoredBlock(c, data, n, rolls, err, uncorrect));
  }

  /** The array after the first n words of a line have been stored. */
  function Slammed(cells: map<Slot, seq<nat>>, at: Slot, subbank: nat, words: seq<seq<nat>>, n: nat): map<Slot, seq<nat>>
    requires n <= |words|
  {
    if n == 0 then cells
    else Slammed(cells, at, subbank, words, n - 1)[at.(sub := SubOf(subbank, n - 1)) := words[n - 1]]
  }

  ghost predicate Readable(cells: map<Slot, seq<nat>>, at: Slot) {
    forall b :: 0 <= b < 4 ==> at.(sub := b) in cells && |cells[at.(sub := b)]| == 20
  }

  /** The line that `get_data` collects, sub-bank 3 first. */
  ghost function Collected(c: Coder, cells: map<Slot, seq<nat>>, at: Slot): seq<nat>
    requires Readable(cells, at)
  {
    c.read(cells[at.(sub := 3)]) + c.read(cells[at.(sub := 2)]) + c.read(cells[at.(sub := 1)]) + c.read(cells[at.(sub := 0)])
  }

  class DataArray {
    var cells: map<Slot, seq<nat>>
    var subbank: nat
    const err: bool
    const uncorrect: bool

    constructor (err: bool, uncorrect: bool)
      ensures cells == map[] && subbank == 0 && this.err == err && this.uncorrect == uncorrect
    {
      this.err, this.uncorrect := err, uncorrect;
      cells, subbank := map[], 0;
    }

    /** The n-th sixteen bytes go to the current sub-bank, which then moves on. */
    method SlamNext(ghost c: Coder, at: Slot, data: Line64, rolls: seq<Rolls>, n: nat, ghost words: seq<seq<nat>>)
      requires Encodes(c) && subbank < 4 && |rolls| == 4 && n < 4 && StoredAs(c, data, rolls, err, uncorrect, words)
      modifies this
      ensures cells == old(cells)[at.(sub := 3 - old(subbank)) := words[n]] && subbank == (old(subbank) + 1) % 4
    {
      var slam := Compose(c, data, n, rolls, err, uncorrect, words);
      cells := cells[at.(sub := 3 - subbank) := slam];
      subbank := subbank + 1;
      if subbank == 4 {
        subbank := 0;
      }
    }

    /** Writes 64 bytes, sixteen at a time, each time into the next sub-bank. */
    method SlamRealData(ghost c: Coder, at: Slot, data: Line64, rolls: seq<Rolls>) returns (ghost words: seq<seq<nat>>)
      requires Encodes(c) && subbank < 4 && |rolls| == 4
      modifies this
      ensures StoredAs(c, data, rolls, err, uncorrect, words)
      ensures cells == Slammed(old(cells), at, old(subbank), words, |words|)
      ensures subbank == old(subbank)
    {
      words := StoredWords(c, data, rolls, err, uncorrect);
      for n := 0 to 4
        invariant subbank == (old(subbank) + n) % 4
        invariant cells == Slammed(old(cells), at, old(subbank), words, n)
      {
        SlamNext(c, at, data, rolls, n, words);
      }
    }

    /** Reads 64 bytes, sub-bank 3 first. */
    method GetData(ghost c: Coder, at: Slot) returns (staledata: seq<nat>)
      requires Encodes(c) && Readable(cells, at)
      ensures staledata == Collected(c, cells, at)
    {
      staledata := [];
      var b := 4;
      while b > 0
        invariant 0 <= b <= 4
        invariant staledata == CollectedFrom(c, cells, at, b)
      {
        b := b - 1;
        var word := ReadBlock(c, cells[at.(sub := b)]);
        staledata := staledata + word;
      }
      CollectedAll(c, cells, at, b);
    }

    /** Without injected errors, what is written is read back, its blocks rotated by the sub-bank at
        which writing began. */
    method SlamAndGet(at: Slot, data: Line64, rolls: seq<Rolls>) returns (staledata: seq<nat>)
      requires !err && subbank < 4 && |rolls| == 4
      modifies this
      ensures staledata == Rotated(data, old(subbank))
    {
      ghost var c := CoderExists();
      ghost var before, s := cells, subbank;
      ghost var words := SlamRealData(c, at, data, rolls);
      RoundTrip(c, before, at, s, data, rolls, uncorrect, words);
      staledata := GetData(c, at);
    }
  }

  /** The check bits of the n-th sixteen bytes, then the word that holds both. */
  method Compose(ghost c: Coder, data: Line64, n: nat, rolls: seq<Rolls>, err: bool, uncorrect: bool, ghost words: seq<seq<nat>>)
    returns (slam: seq<nat>)
    requires Encodes(c) && n < 4 && |rolls| == 4 && StoredAs(c, data, rolls, err, uncorrect, words)
    ensures slam == words[n]
  {
    assert ProbeBlock(n);
    slam := ComposeLine(c, Block(data, n), rolls[n], err, uncorrect);
  }

  method ComposeLine(ghost c: Coder, l1line: Quad, r: Rolls, err: bool, uncorrect: bool) returns (slam: seq<nat>)
    requires Encodes(c)
    ensures slam == Packed(NoisyLine(c, l1line, r, err, uncorrect))
  {
    var ecc := ChecksOfLine(c, l1line);
    slam := AdjustData(c, l1line, ecc, err, uncorrect, r);
  }

  ghost function CollectedFrom(c: Coder, cells: map<Slot, seq<nat>>, at: Slot, b: nat): seq<nat>
    requires Readable(cells, at) && b <= 4
    decreases 4 - b
  {
    if b == 4 then [] else CollectedFrom(c, cells, at, b + 1) + c.read(cells[at.(sub := b)])
  }

  lemma CollectedAll(c: Coder, cells: map<Slot, seq<nat>>, at: Slot, b: nat)
    requires Readable(cells, at) && b == 0
    ensures CollectedFrom(c, cells, at, b) == Collected(c, cells, at)
  {
    assert CollectedFrom(c, cells, at, b + 3) == c.read(cells[at.(sub := 3)]);
    assert CollectedFrom(c, cells, at, b + 2) == c.read(cells[at.(sub := 3)]) + c.read(cells[at.(sub := 2)]);
    assert CollectedFrom(c, cells, at, b + 1)
        == c.read(cells[at.(sub := 3)]) + c.read(cells[at.(sub := 2)]) + c.read(cells[at.(sub := 1)]);
    assert CollectedFrom(c, cells, at, b) == CollectedFrom(c, cells, at, b + 1) + c.read(cells[at.(sub := b)]);
  }

  /** The check bits of the four words of a line. */
  method ChecksOfLine(ghost c: Coder, l1line: Quad) returns (ecc: seq<nat>)
    requires Encodes(c)
    ensures ChecksOf(c, l1line, ecc)
  {
    var ecc0 := CheckOfWord(c, WordOf(l1line, 0));
    var ecc1 := CheckOfWord(c, WordOf(l1line, 1));
    var ecc2 := CheckOfWord(c, WordOf(l1line, 2));
    var ecc3 := CheckOfWord(c, WordOf(l1line, 3));
    ecc := [ecc0, ecc1, ecc2, ecc3];
  }

  method CheckOfWord(ghost c: Coder, bytes: seq<Byte>) returns (check: nat)
    requires Encodes(c) && |bytes| == 4
    ensures check == c.code(bytes).check
  {
    var fbyte := Gather(bytes);
    check := Decc(fbyte);
    CodedIs(c, bytes);
  }

  // ---------------------------------------------------------------- get_data of one word

  method ReadBlock(ghost c: Coder, word: seq<nat>) returns (s: seq<nat>)
    requires Encodes(c) && |word| == 20
    ensures s == c.read(word)
  {
    s := ReadBytes(word);
    assert ProbeWord(word);
  }

  method ReadBytes(word: seq<nat>) returns (s: seq<nat>)
    requires |word| == 20
    ensures s == ReadLine(Unpacked(word))
  {
    var unpk := UnpackWord(word);
    s := PackData(unpk);
  }

  /** pack_data. */
  method PackData(unpk: seq<bool>) returns (s: seq<nat>)
    requires |unpk| >= WORD
    ensures s == ReadLine(unpk)
  {
    var p := Pack4Bytes(unpk, 155);
    var q := Pack4Bytes(unpk, 116);
    var r := Pack4Bytes(unpk, 77);
    var t := Pack4Bytes(unpk, 38);
    s := p + q + r + t;
  }

  method UnpackWord(word: seq<nat>) returns (unpk: seq<bool>)
    ensures unpk == Unpacked(word)
  {
    unpk := [];
    assert word[0..] == word;
    for i := 0 to |word|
      invariant unpk + Unpacked(word[i..]) == Unpacked(word)
    {
      var bits := Unpack(word[i], 8);
      assert word[i..][1..] == word[i + 1..];
      Regroup(unpk, BitsOf(word[i], 8), Unpacked(word[i + 1..]));
      unpk := unpk + bits[..];
    }
    AppendNothing(unpk, Unpacked(word[|word|..]));
  }

  /** Four bytes from the 32 bits that end at idx, highest bit first. */
  method Pack4Bytes(unpk: seq<bool>, idx: nat) returns (s: seq<nat>)
    requires 31 <= idx < |unpk|
    ensures s == BytesOf(unpk[idx - 31..idx + 1])
  {
    s := [];
    var at := idx + 1;
    for i := 0 to 4
      invariant at == idx + 1 - 8 * i && s == BytesOf(unpk[at..idx + 1])
    {
      var byte := PackDown(unpk, at);
      BytesAbove(unpk, at - 8, idx + 1);
      at := at - 8;
      s := s + [byte];
    }
  }

  lemma BytesAbove(w: Bits, lo: nat, hi: nat)
    requires lo + 8 <= hi <= |w|
    ensures BytesOf(w[lo..hi]) == BytesOf(w[lo + 8..hi]) + [Value(w[lo..lo + 8])]
  {
    assert w[lo..hi][8..] == w[lo + 8..hi] && w[lo..hi][..8] == w[lo..lo + 8];
  }

  /** The byte of the eight bits below `at`, highest bit first. */
  method PackDown(unpk: seq<bool>, at: nat) returns (byte: nat)
    requires 8 <= at <= |unpk|
    ensures byte == Value(unpk[at - 8..at])
  {
    byte := 0;
    for j := 0 to 8
      invariant byte == Value(unpk[at - j..at])
    {
      assert unpk[at - j - 1..at][1..] == unpk[at - j..at];
      byte := 2 * byte + (if unpk[at - j - 1] then 1 else 0);
    }
  }

  // ---------------------------------------------------------------- round trip

  lemma {:induction false} PackedLength(w: Bits)
    ensures |Packed(w)| == (|w| + 7) / 8
    decreases |w|
  {
    if |w| > 8 {
      PackedLength(w[8..]);
    }
  }

  /** The twenty bytes of a stored word unpack into its 156 bits and four zeros, for which the array of
      `get_data` has no room. */
  lemma Overrun(w: Bits)
    requires |w| == WORD
    ensures |Packed(w)| == 20 && Unpacked(Packed(w)) == w + Zeros(4)
  {
    PackedLength(w);
    PackedRoundTrip(w);
  }

  /** A word stored without errors reads back as the bytes it was made from. */
  lemma BlockRoundTrip(c: Coder, line: Quad, r: Rolls, uncorrect: bool, word: seq<nat>)
    requires Encodes(c) && word == Packed(NoisyLine(c, line, r, false, uncorrect))
    ensures |word| == 20 && c.read(word) == line
  {
    var w := NoisyLine(c, line, r, false, uncorrect);
    Overrun(w);
    LineRoundTrip(c, line, Unpacked(word));
    assert ProbeWord(word);
  }

  ghost predicate AllIn(cells: map<Slot, seq<nat>>, at: Slot, subbank: nat, words: seq<seq<nat>>, n: nat) {
    n <= |words| && forall k :: 0 <= k < n ==> Holds(cells, at.(sub := SubOf(subbank, k)), words[k])
  }

  predicate Holds(cells: map<Slot, seq<nat>>, at: Slot, word: seq<nat>) {
    at in cells && cells[at] == word
  }

  /** Four blocks go to four different sub-banks. */
  lemma {:induction false} SlammedHolds(cells: map<Slot, seq<nat>>, at: Slot, subbank: nat, words: seq<seq<nat>>, n: nat)
    requires n <= |words| && n <= 4
    ensures AllIn(Slammed(cells, at, subbank, words, n), at, subbank, words, n)
  {
    if n > 0 {
      SlammedHolds(cells, at, subbank, words, n - 1);
      forall k | 0 <= k < n - 1
        ensures SubOf(subbank, k) != SubOf(subbank, n - 1)
      {
      }
    }
  }

  /** No word outside the line is touched. */
  lemma {:induction false} SlammedElsewhere(cells: map<Slot, seq<nat>>, at: Slot, subbank: nat, words: seq<seq<nat>>, n: nat, other: Slot)
    requires n <= |words| && other.(sub := at.sub) != at
    ensures other in Slammed(cells, at, subbank, words, n) <==> other in cells
    ensures other in cells ==> Slammed(cells, at, subbank, words, n)[other] == cells[other]
  {
    if n > 0 {
      SlammedElsewhere(cells, at, subbank, words, n - 1, other);
    }
  }

  /** The blocks of a line in the order in which they are read back. */
  function Rotated(data: Line64, subbank: nat): seq<nat>
    requires subbank < 4
  {
    Block(data, (4 - subbank) % 4) + Block(data, (5 - subbank) % 4) + Block(data, (6 - subbank) % 4) + Block(data, (7 - subbank) % 4)
  }

  lemma StoredReads(c: Coder, data: Line64, rolls: seq<Rolls>, uncorrect: bool, words: seq<seq<nat>>, n: nat)
    requires Encodes(c) && |rolls| == 4 && n < 4 && StoredAs(c, data, rolls, false, uncorrect, words)
    ensures |words[n]| == 20 && c.read(words[n]) == Block(data, n)
  {
    assert ProbeBlock(n);
    BlockRoundTrip(c, Block(data, n), rolls[n], uncorrect, words[n]);
  }

  lemma SubInverse(subbank: nat, m: nat)
    requires subbank < 4 && m < 4
    ensures SubOf(subbank, (4 + m - subbank) % 4) == 3 - m
  {
  }

  lemma HoldsAt(cells: map<Slot, seq<nat>>, at: Slot, subbank: nat, words: seq<seq<nat>>, n: nat, m: nat)
    requires |words| == 4 && AllIn(cells, at, subbank, words, 4) && subbank < 4 && m < 4 && n == (4 + m - subbank) % 4
    ensures Holds(cells, at.(sub := 3 - m), words[n])
  {
    SubInverse(subbank, m);
    assert Holds(cells, at.(sub := SubOf(subbank, n)), words[n]);
  }

  lemma CollectedOf(c: Coder, cells: map<Slot, seq<nat>>, at: Slot, p: seq<nat>, q: seq<nat>, r: seq<nat>, t: seq<nat>)
    requires Holds(cells, at.(sub := 3), p) && Holds(cells, at.(sub := 2), q)
    requires Holds(cells, at.(sub := 1), r) && Holds(cells, at.(sub := 0), t)
    requires |p| == |q| == |r| == |t| == 20
    ensures Readable(cells, at) && Collected(c, cells, at) == c.read(p) + c.read(q) + c.read(r) + c.read(t)
  {
  }

  lemma AllHeld(cells: map<Slot, seq<nat>>, at: Slot, subbank: nat, words: seq<seq<nat>>, i: nat, j: nat, k: nat, l: nat)
    requires |words| == 4 && subbank < 4 && AllIn(cells, at, subbank, words, 4)
    requires i == (4 - subbank) % 4 && j == (5 - subbank) % 4 && k == (6 - subbank) % 4 && l == (7 - subbank) % 4
    ensures Holds(cells, at.(sub := 3), words[i]) && Holds(cells, at.(sub := 2), words[j])
    ensures Holds(cells, at.(sub := 1), words[k]) && Holds(cells, at.(sub := 0), words[l])
  {
    HoldsAt(cells, at, subbank, words, i, 0);
    HoldsAt(cells, at, subbank, words, j, 1);
    HoldsAt(cells, at, subbank, words, k, 2);
    HoldsAt(cells, at, subbank, words, l, 3);
  }

  lemma WordsRoundTrip(c: Coder, cells: map<Slot, seq<nat>>, at: Slot, subbank: nat, words: seq<seq<nat>>, i: nat, j: nat, k: nat, l: nat)
    requires |words| == 4 && subbank < 4
    requires i == (4 - subbank) % 4 && j == (5 - subbank) % 4 && k == (6 - subbank) % 4 && l == (7 - subbank) % 4
    requires |words[i]| == |words[j]| == |words[k]| == |words[l]| == 20
    ensures Readable(Slammed(cells, at, subbank, words, |words|), at)
    ensures Collected(c, Slammed(cells, at, subbank, words, |words|), at) == c.read(words[i]) + c.read(words[j]) + c.read(words[k]) + c.read(words[l])
  {
    var after := Slammed(cells, at, subbank, words, |words|);
    SlammedHolds(cells, at, subbank, words, |words|);
    AllHeld(after, at, subbank, words, i, j, k, l);
    CollectedOf(c, after, at, words[i], words[j], words[k], words[l]);
  }

  /** Without injected errors, what is read back is the line, its blocks rotated by the sub-bank at
      which writing began. */
  lemma RoundTrip(c: Coder, cells: map<Slot, seq<nat>>, at: Slot, subbank: nat, data: Line64, rolls: seq<Rolls>, uncorrect: bool,
                  words: seq<seq<nat>>)
    requires Encodes(c) && |rolls| == 4 && subbank < 4 && StoredAs(c, data, rolls, false, uncorrect, words)
    ensures var after := Slammed(cells, at, subbank, words, |words|);
      Readable(after, at) && Collected(c, after, at) == Rotated(data, subbank)
  {
    var i, j, k, l := (4 - subbank) % 4, (5 - subbank) % 4, (6 - subbank) % 4, (7 - subbank) % 4;
    StoredReads(c, data, rolls, uncorrect, words, i);
    StoredReads(c, data, rolls, uncorrect, words, j);
    StoredReads(c, data, rolls, uncorrect, words, k);
    StoredReads(c, data, rolls, uncorrect, words, l);
    WordsRoundTrip(c, cells, at, subbank, words, i, j, k, l);
  }

  /** The line reads back unchanged, whatever it holds, exactly if writing began at sub-bank 0, as it
      does in both callers. */
  lemma UnrotatedIffZero(subbank: nat)
    requires subbank < 4
    ensures (forall data: Line64 :: Rotated(data, subbank) == data) <==> subbank == 0
  {
    if subbank == 0 {
      forall data: Line64
        ensures Rotated(data, 0) == data
      {
        assert Rotated(data, 0) == data[0..16] + data[16..32] + data[32..48] + data[48..64];
      }
    } else {
      var data: Line64 := seq(64, i requires 0 <= i < 64 => i);
      assert Rotated(data, subbank)[0] == data[16 * (4 - subbank)];
    }
  }

  /** Which sixteen bytes are written n-th, and into which sub-bank. */
  lemma BlocksListed(data: Line64, subbank: nat, n: nat)
    requires subbank < 4 && n < 4
    ensures Block(data, n) == data[16 * n..16 * n + 16] && SubOf(subbank, n) == 3 - (subbank + n) % 4
  {
  }
}
