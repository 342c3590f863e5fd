/** How l2warm.cc lays out 16 bytes in a 156-bit word of the data array: four words of 39 bits, the
    last four bytes first, each with its seven check bits below its 32 data bits. */
module CacheLine {
  import opened Distances
  import opened LinearCode
  import opened HammingCode
  import opened EccRows
  import opened EccWords
  import opened Words
  import opened Sequences

  const SEGMENT := 39
  const WORD := 156

  function L32(): Layout {
    LayoutOf(Word32)
  }

  type Quad = s: seq<Byte> | |s| == 16 witness seq(16, _ => 0)

  /** The k-th four bytes. */
  function WordOf(line: Quad, k: nat): (s: seq<Byte>)
    requires k < 4
    ensures |s| == 4
  {
    line[4 * k..4 * k + 4]
  }

  /** Four bytes as `decc` codes them: the check bits as a number, the data bits, and both as a word. */
  datatype Coded = Coded(check: nat, data: Bits, segment: Bits)

  /** How four bytes are coded and a stored word is read, as function values: proofs that only move
      words about do not look into them, and those that need a definition ask for it with `Probe`. */
  datatype Coder = Coder(code: seq<Byte> -> Coded, read: seq<nat> -> seq<nat>)

  predicate Probe(bytes: seq<Byte>) {
    true
  }

  predicate ProbeWord(word: seq<nat>) {
    true
  }

  ghost predicate Encodes(c: Coder) {
    && (forall b :: |b| == 4 ==> |c.code(b).data| == 32 && |c.code(b).segment| == SEGMENT)
    && (forall b {:trigger Probe(b)} :: |b| == 4 ==>
          && c.code(b).data == BitsOf(BigEndian(b), 8 * |b|)
          && c.code(b).segment == Encode(L32(), c.code(b).data)
          && c.code(b).check == Value(Check(L32(), c.code(b).data)))
    && (forall w {:trigger ProbeWord(w)} :: |w| == 20 ==> c.read(w) == ReadLine(Unpacked(w)))
  }

  lemma CodedIs(c: Coder, b: seq<Byte>)
    requires Encodes(c) && |b| == 4
    ensures c.code(b).data == BitsOf(BigEndian(b), 8 * |b|) && |c.code(b).data| == 32
    ensures c.code(b).segment == Encode(L32(), c.code(b).data)
    ensures c.code(b).check == Value(Check(L32(), c.code(b).data))
  {
    assert Probe(b);
  }

  /** There is such a coder. */
  lemma CoderExists() returns (c: Coder)
    ensures Encodes(c)
  {
    c := Coder(Code32, Read32);
    forall b: seq<Byte> | |b| == 4
      ensures |c.code(b).data| == 32 && |c.code(b).segment| == SEGMENT
    {
      assert c.code(b) == Code32(b);
    }
    forall w: seq<nat> | |w| == 20
      ensures c.read(w) == ReadLine(Unpacked(w))
    {
      assert c.read(w) == Read32(w);
    }
  }

  function Read32(w: seq<nat>): seq<nat> {
    if |w| == 20 then ReadLine(Unpacked(w)) else []
  }

  function Code32(b: seq<Byte>): Coded {
    if |b| == 4 then
      var d := BitsOf(BigEndian(b), 8 * |b|);
      Coded(Value(Check(L32(), d)), d, Encode(L32(), d))
    else Coded(0, [], [])
  }

  /** The k-th four bytes with their check bits. */
  ghost function Segment(c: Coder, line: Quad, k: nat): (s: Bits)
    requires Encodes(c) && k < 4
    ensures |s| == SEGMENT
  {
    c.code(WordOf(line, k)).segment
  }

  /** Four segments in a row, the last one lowest. */
  function Join(s0: Bits, s1: Bits, s2: Bits, s3: Bits): Bits {
    s3 + s2 + s1 + s0
  }

  ghost function LineBits(c: Coder, line: Quad): (w: Bits)
    requires Encodes(c)
    ensures |w| == WORD
  {
    Join(Segment(c, line, 0), Segment(c, line, 1), Segment(c, line, 2), Segment(c, line, 3))
  }

  // ---------------------------------------------------------------- error injection

  /** The bit that error injection picks: any but the parity bit and the highest data bit. */
  function Victim(random: nat): (n: nat)
    ensures n < 38 && n != 6
  {
    var num := random % 256 % 38;
    if num == 6 then 0 else num
  }

  /** The random numbers that one line consumes. */
  datatype Rolls = Rolls(first: nat, second: nat, third: nat, fourth: nat, which: nat, again: nat)

  function RollOf(r: Rolls, k: nat): nat {
    if k == 0 then r.first else if k == 1 then r.second else if k == 2 then r.third else r.fourth
  }

  /** The segment that `uncorrect_err` hits once more. */
  function Twice(r: Rolls): (k: nat)
    ensures k < 4
  {
    r.which % 256 % 4
  }

  /** What is stored for segment k. */
  function Noisy(s: Bits, k: nat, r: Rolls, err: bool, uncorrect: bool): (t: Bits)
    requires |s| == SEGMENT
    ensures |t| == SEGMENT
  {
    if !err then s
    else if uncorrect && k == Twice(r) then Flip(Flip(s, Victim(RollOf(r, k))), Victim(r.again))
    else Flip(s, Victim(RollOf(r, k)))
  }

  ghost function NoisyLine(c: Coder, line: Quad, r: Rolls, err: bool, uncorrect: bool): (w: Bits)
    requires Encodes(c)
    ensures |w| == WORD
  {
    Join(Noisy(Segment(c, line, 0), 0, r, err, uncorrect), Noisy(Segment(c, line, 1), 1, r, err, uncorrect),
         Noisy(Segment(c, line, 2), 2, r, err, uncorrect), Noisy(Segment(c, line, 3), 3, r, err, uncorrect))
  }

  lemma FlipDistance(s: Bits, n: nat)
    requires n < |s|
    ensures Distance(Flip(s, n), s) == 1
  {
    assert Differ(Flip(s, n), s) == {n};
  }

  /** Without `uncorrect_err`, every stored segment is one bit from its codeword, and no other
      codeword is within two bits of it. */
  lemma InjectionIsCorrectable(d: Bits, k: nat, r: Rolls, e: Bits)
    requires |d| == |e| == 32
    ensures var stored := Noisy(Encode(L32(), d), k, r, true, false);
      && Distance(stored, Encode(L32(), d)) == 1
      && (Distance(stored, Encode(L32(), e)) <= 2 ==> e == d)
  {
    var s := Encode(L32(), d);
    var stored := Noisy(s, k, r, true, false);
    FlipDistance(s, Victim(RollOf(r, k)));
    LayoutsValid(Word32);
    EncodedDistance(L32(), d, e);
    if Distance(stored, Encode(L32(), e)) <= 2 {
      Triangle(s, stored, Encode(L32(), e));
    }
  }

  lemma FlipTwice(s: Bits, n: nat)
    requires n < |s|
    ensures Flip(Flip(s, n), n) == s
  {
  }

  lemma FlipsCommute(s: Bits, m: nat, n: nat)
    requires m < |s| && n < |s| && m != n
    ensures Flip(Flip(s, m), n) == Flip(Flip(s, n), m)
  {
  }

  /** The segment that `uncorrect_err` hits twice is detected as uncorrectable (an even syndrome that
      is not zero) exactly if the two rolls pick different bits; otherwise the error is undone. */
  lemma InjectionIsUncorrectable(d: Bits, r: Rolls)
    requires |d| == 32
    ensures var k := Twice(r);
      var stored := Noisy(Encode(L32(), d), k, r, true, true);
      && !Odd(HammingCode.Syndrome(L32(), stored))
      && (HammingCode.Syndrome(L32(), stored) != Zeros(7) <==> Victim(RollOf(r, k)) != Victim(r.again))
      && (stored == Encode(L32(), d) <==> Victim(RollOf(r, k)) == Victim(r.again))
  {
    var k := Twice(r);
    var m, n := Victim(RollOf(r, k)), Victim(r.again);
    var s := Encode(L32(), d);
    LayoutsValid(Word32);
    if m == n {
      FlipTwice(s, m);
      SyndromeOfErrors(L32(), d, 0, 1);
      OddZeros(7);
    } else {
      FlipsCommute(s, m, n);
      if m < n {
        SyndromeOfErrors(L32(), d, m, n);
      } else {
        SyndromeOfErrors(L32(), d, n, m);
      }
    }
  }

  /** `check_parity` over the low bits of a number. */
  method CheckParity(bits: int, num: nat) returns (p: bool)
    ensures p == Odd(BitsOf(bits, num))
  {
    p := false;
    var rest := bits;
    for i := 0 to num
      invariant (p != Odd(BitsOf(rest, num - i))) == Odd(BitsOf(bits, num))
    {
      OddCons(rest % 2 == 1, BitsOf(rest / 2, num - i - 1));
      p := p != (rest % 2 == 1);
      rest := rest / 2;
    }
  }

  /** A clean segment has even parity, one with a single injected error odd parity. */
  lemma ParityOfSegment(d: Bits, k: nat, r: Rolls)
    requires |d| == 32
    ensures !Odd(Encode(L32(), d))
    ensures Odd(Noisy(Encode(L32(), d), k, r, true, false))
  {
    LayoutsValid(Word32);
    EncodedDistance(L32(), d, d);
    OddFlip(Encode(L32(), d), Victim(RollOf(r, k)));
  }

  lemma OddFlip(s: Bits, n: nat)
    requires n < |s|
    ensures Odd(Flip(s, n)) != Odd(s)
  {
    assert Flip(s, n) == Add(s, Unit(|s|, n));
    OddAdd(s, Unit(|s|, n));
    OddUnit(n, |s|);
  }

  // ---------------------------------------------------------------- bytes and bits

  /** Bits packed into bytes, least significant bit first; the last byte may be short. */
  function Packed(w: Bits): (s: seq<nat>)
    decreases |w|
  {
    if |w| == 0 then [] else if |w| <= 8 then [Value(w)] else [Value(w[..8])] + Packed(w[8..])
  }

  function Unpacked(s: seq<nat>): (w: Bits)
    ensures |w| == 8 * |s|
  {
    if s == [] then [] else BitsOf(s[0], 8) + Unpacked(s[1..])
  }

  lemma {:induction false} BitsOfShort(w: Bits, n: nat)
    requires |w| <= n
    ensures BitsOf(Value(w), n) == w + Zeros(n - |w|)
    decreases n
  {
    if w == [] {
      BitsOfZero(n);
    } else {
      BitsOfShort(w[1..], n - 1);
      assert w == [w[0]] + w[1..];
    }
  }

  /** Unpacking packed bits gives them back, and zeros for the padding of the last byte. */
  lemma {:induction false} PackedRoundTrip(w: Bits)
    ensures |w| <= 8 * |Packed(w)| && Unpacked(Packed(w)) == w + Zeros(8 * |Packed(w)| - |w|)
    decreases |w|
  {
    if 0 < |w| <= 8 {
      BitsOfShort(w, 8);
      assert Unpacked([Value(w)]) == BitsOf(Value(w), 8) + Unpacked([]);
    } else if |w| > 8 {
      var s := Packed(w);
      PackedRoundTrip(w[8..]);
      BitsOfShort(w[..8], 8);
      assert s[1..] == Packed(w[8..]);
      Regroup(w[..8], w[8..], Zeros(8 * |s[1..]| - |w[8..]|));
      assert w == w[..8] + w[8..];
    }
  }

  /** The bytes of a number given by its bits, most significant first. */
  function BytesOf(d: Bits): (s: seq<nat>)
    decreases |d|
  {
    if |d| < 8 then [] else BytesOf(d[8..]) + [Value(d[..8])]
  }

  lemma ValueOfByte(b: Byte, n: nat)
    requires n == 8
    ensures Value(BitsOf(b, n)) == b
  {
    PowerOfEight(n);
    ValueOfBits(b, n);
  }

  lemma SplitLast(s: seq<Byte>, n: nat, k: nat, rest: nat)
    requires s != [] && n == 8 && k == n + rest
    ensures BitsOf(BigEndian(s), k) == BitsOf(s[|s| - 1], n) + BitsOf(BigEndian(s[..|s| - 1]), rest)
    ensures Value(BitsOf(s[|s| - 1], n)) == s[|s| - 1]
  {
    BitsOfBytes(s, s[..|s| - 1], s[|s| - 1], n, rest);
    ValueOfByte(s[|s| - 1], n);
  }

  /** The bits of big-endian bytes give the bytes back. */
  lemma {:induction false} BytesOfBits(s: seq<Byte>, n: nat, k: nat)
    requires n == 8 && k == 8 * |s|
    ensures BytesOf(BitsOf(BigEndian(s), k)) == s
  {
    if s != [] {
      var init := s[..|s| - 1];
      BytesOfBits(init, n, k - n);
      SplitLast(s, n, k, k - n);
      BytesStep(BitsOf(s[|s| - 1], n), BitsOf(BigEndian(init), k - n));
      assert s == init + [s[|s| - 1]];
    }
  }

  lemma BytesStep(a: Bits, b: Bits)
    requires |a| == 8
    ensures BytesOf(a + b) == BytesOf(b) + [Value(a)]
  {
    assert (a + b)[8..] == b && (a + b)[..8] == a;
  }

  // ---------------------------------------------------------------- reading a line back

  /** The sixteen bytes that `get_data` takes from a word of the data array. */
  function ReadLine(w: Bits): (s: seq<nat>)
    requires |w| >= WORD
  {
    BytesOf(w[124..156]) + BytesOf(w[85..117]) + BytesOf(w[46..78]) + BytesOf(w[7..39])
  }

  lemma DataPart(c: Bits, d: Bits)
    requires |c| == 7 && |d| == 32
    ensures (c + d)[7..39] == d
  {
  }

  lemma PartsOfLine(a: Bits, b: Bits, c: Bits, d: Bits)
    requires |a| == |b| == |c| == |d| == SEGMENT
    ensures var v := Join(a, b, c, d);
      |v| == WORD && v[117..156] == a && v[78..117] == b && v[39..78] == c && v[0..39] == d
  {
    var r := d + c;
    var q := r + b;
    assert r[0..39] == d && r[39..78] == c;
    assert q[0..39] == d && q[39..78] == c && q[78..117] == b by {
      SlicePrefix(r, b, 0, 39);
      SlicePrefix(r, b, 39, 78);
    }
    SlicePrefix(q, a, 0, 39);
    SlicePrefix(q, a, 39, 78);
    SlicePrefix(q, a, 78, 117);
    assert (q + a)[117..156] == a;
  }

  /** The four segments of a word. */
  lemma SegmentsOf(w: Bits, a: Bits, b: Bits, c: Bits, d: Bits)
    requires |a| == |b| == |c| == |d| == SEGMENT && |w| >= WORD && w[..WORD] == Join(a, b, c, d)
    ensures w[117..156] == a && w[78..117] == b && w[39..78] == c && w[0..39] == d
  {
    PartsOfLine(a, b, c, d);
    assert w[0..WORD] == w[..WORD];
    SubSlice(w, 0, WORD, 117, 156);
    SubSlice(w, 0, WORD, 78, 117);
    SubSlice(w, 0, WORD, 39, 78);
    SubSlice(w, 0, WORD, 0, 39);
  }

  lemma WordOfSegment(w: Bits, low: nat, a: Bits, d: Bits, bytes: seq<Byte>)
    requires low + 39 <= |w| && w[low..low + 39] == a && a[7..39] == d && BytesOf(d) == bytes
    ensures BytesOf(w[low + 7..low + 39]) == bytes
  {
    SubSlice(w, low, low + 39, 7, 39);
  }

  lemma FourQuarters(line: Quad)
    ensures line == line[0..4] + line[4..8] + line[8..12] + line[12..16]
  {
  }

  lemma ReadSegments(w: Bits, a: Bits, b: Bits, c: Bits, d: Bits, p: seq<Byte>, q: seq<Byte>, r: seq<Byte>, t: seq<Byte>)
    requires |a| == |b| == |c| == |d| == SEGMENT && |w| >= WORD && w[..WORD] == Join(a, b, c, d)
    requires BytesOf(a[7..39]) == p && BytesOf(b[7..39]) == q && BytesOf(c[7..39]) == r && BytesOf(d[7..39]) == t
    ensures ReadLine(w) == p + q + r + t
  {
    SegmentsOf(w, a, b, c, d);
    WordOfSegment(w, 117, a, a[7..39], p);
    WordOfSegment(w, 78, b, b[7..39], q);
    WordOfSegment(w, 39, c, c[7..39], r);
    WordOfSegment(w, 0, d, d[7..39], t);
  }

  lemma BytesOfSegment(c: Coder, bytes: seq<Byte>)
    requires Encodes(c) && |bytes| == 4
    ensures BytesOf(c.code(bytes).segment[7..39]) == bytes
  {
    CodedIs(c, bytes);
    var d := c.code(bytes).data;
    DataPart(Check(L32(), d), d);
    BytesOfBits(bytes, 2 * |bytes|, 8 * |bytes|);
  }

  /** Reading a clean line gives the bytes that were laid out, whatever follows its 156 bits. */
  lemma LineRoundTrip(c: Coder, line: Quad, w: Bits)
    requires Encodes(c) && |w| >= WORD && w[..WORD] == LineBits(c, line)
    ensures ReadLine(w) == line
  {
    BytesOfSegment(c, WordOf(line, 0));
    BytesOfSegment(c, WordOf(line, 1));
    BytesOfSegment(c, WordOf(line, 2));
    BytesOfSegment(c, WordOf(line, 3));
    ReadSegments(w, Segment(c, line, 0), Segment(c, line, 1), Segment(c, line, 2), Segment(c, line, 3),
                 WordOf(line, 0), WordOf(line, 1), WordOf(line, 2), WordOf(line, 3));
    FourQuarters(line);
  }

  // ---------------------------------------------------------------- where every bit stands

  lemma {:induction false} BytesInBits(s: seq<Byte>, j: nat, n: nat, k: nat)
    requires j < |s| && n == 8 && k == 8 * |s|
    ensures BitsOf(BigEndian(s), k)[8 * (|s| - 1 - j)..8 * (|s| - j)] == BitsOf(s[j], n)
  {
    var last, init := |s| - 1, s[..|s| - 1];
    SplitLast(s, n, k, k - n);
    var a, b := BitsOf(s[last], n), BitsOf(BigEndian(init), k - n);
    if j == last {
      assert (a + b)[0..8] == a;
    } else {
      BytesInBits(init, j, n, k - n);
      SliceAfter(a, b, 8 * (last - 1 - j), 8 * (last - j));
    }
  }

  lemma SegmentAt(c: Coder, line: Quad, k: nat, low: nat)
    requires Encodes(c) && k < 4 && low == 117 - 39 * k
    ensures LineBits(c, line)[low..low + 39] == Segment(c, line, k)
  {
    PartsOfLine(Segment(c, line, 0), Segment(c, line, 1), Segment(c, line, 2), Segment(c, line, 3));
    assert k == 0 || k == 1 || k == 2 || k == 3;
  }

  lemma PartsOfSegment(c: Coder, bytes: seq<Byte>, s: Bits, d: Bits)
    requires Encodes(c) && |bytes| == 4 && s == c.code(bytes).segment && d == BitsOf(BigEndian(bytes), 32)
    ensures |s| == SEGMENT && s[0..7] == Check(L32(), d) && s[7..39] == d
  {
    CodedIs(c, bytes);
    DataPart(Check(L32(), d), d);
    assert s[0..7] == Check(L32(), d);
  }

  /** Segment k stands at 117 - 39 k: first the seven check bits of its four bytes, then the bytes. */
  lemma LineLayout(c: Coder, line: Quad, k: nat, low: nat, bytes: seq<Byte>, d: Bits)
    requires Encodes(c) && k < 4 && low == 117 - 39 * k && bytes == line[4 * k..4 * k + 4] && d == BitsOf(BigEndian(bytes), 32)
    ensures LineBits(c, line)[low..low + 7] == Check(L32(), d) && LineBits(c, line)[low + 7..low + 39] == d
  {
    SegmentAt(c, line, k, low);
    PartsOfSegment(c, bytes, Segment(c, line, k), d);
    Inside(LineBits(c, line), low, Segment(c, line, k), Check(L32(), d), d);
  }

  lemma Inside(w: Bits, low: nat, s: Bits, a: Bits, b: Bits)
    requires low + 39 <= |w| && w[low..low + 39] == s && s[0..7] == a && s[7..39] == b
    ensures w[low..low + 7] == a && w[low + 7..low + 39] == b
  {
    SubSlice(w, low, low + 39, 0, 7);
    SubSlice(w, low, low + 39, 7, 39);
  }

  /** Byte j of the four, the last one lowest. */
  lemma ByteInLine(c: Coder, line: Quad, k: nat, low: nat, bytes: seq<Byte>, j: nat, at: nat)
    requires Encodes(c) && k < 4 && low == 117 - 39 * k && bytes == line[4 * k..4 * k + 4]
    requires j < 4 && at == low + 7 + 8 * (3 - j)
    ensures LineBits(c, line)[at..at + 8] == BitsOf(bytes[j], 8)
  {
    var d := BitsOf(BigEndian(bytes), 32);
    LineLayout(c, line, k, low, bytes, d);
    ByteInWord(bytes, j, d);
    ByteIn(LineBits(c, line), low + 7, d, 8 * (3 - j), at, BitsOf(bytes[j], 8));
  }

  lemma ByteInWord(word: seq<Byte>, j: nat, d: Bits)
    requires |word| == 4 && j < 4 && d == BitsOf(BigEndian(word), 32)
    ensures d[8 * (3 - j)..8 * (3 - j) + 8] == BitsOf(word[j], 8)
  {
    BytesInBits(word, j, 8, 32);
  }

  lemma ByteIn(w: Bits, low: nat, d: Bits, i: nat, at: nat, b: Bits)
    requires low + 32 <= |w| && w[low..low + 32] == d && i <= 24 && d[i..i + 8] == b && at == low + i
    ensures w[at..at + 8] == b
  {
    SubSlice(w, low, low + 32, i, i + 8);
  }

  /** Which bit of its segment a random number reaches, and which segment is struck twice. */
  lemma RollsReach(random: nat, r: Rolls)
    ensures random % 256 % 38 != 6 ==> Victim(random) == random % 256 % 38
    ensures random % 256 % 38 == 6 ==> Victim(random) == 0
    ensures Twice(r) == r.which % 4
  {
  }

  /** Every segment of a line stored with errors is struck once, each by its own random number. */
  lemma StruckBits(c: Coder, line: Quad, r: Rolls, p: nat)
    requires Encodes(c) && p < WORD
    ensures NoisyLine(c, line, r, true, false)[p] != LineBits(c, line)[p]
      <==> p == 117 + Victim(r.first) || p == 78 + Victim(r.second) || p == 39 + Victim(r.third) || p == Victim(r.fourth)
  {
    StruckIn(Segment(c, line, 0), Segment(c, line, 1), Segment(c, line, 2), Segment(c, line, 3), r, p);
  }

  lemma StruckIn(s0: Bits, s1: Bits, s2: Bits, s3: Bits, r: Rolls, p: nat)
    requires |s0| == |s1| == |s2| == |s3| == SEGMENT && p < WORD
    ensures var v := Join(Flip(s0, Victim(r.first)), Flip(s1, Victim(r.second)), Flip(s2, Victim(r.third)), Flip(s3, Victim(r.fourth)));
      |v| == WORD == |Join(s0, s1, s2, s3)| && (v[p] != Join(s0, s1, s2, s3)[p]
      <==> p == 117 + Victim(r.first) || p == 78 + Victim(r.second) || p == 39 + Victim(r.third) || p == Victim(r.fourth))
  {
  }
}
