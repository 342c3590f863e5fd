/** `decc`, `tecc` and `syndrome` themselves: numbers and bytes are unpacked into bits, the check bits
    are the exclusive ors of the lists, and they are packed into a number again. */
module EccWords {
  import opened Distances
  import opened LinearCode
  import opened HammingCode
  import opened EccRows
  import opened Words
  import opened Sequences

  /** The check bits of the low bits of a number. */
  function CheckValue(code: Code, x: int): nat {
    Value(Check(LayoutOf(code), BitsOf(x, LayoutOf(code).data)))
  }

  method Unpack(x: int, n: nat) returns (d: array<bool>)
    ensures fresh(d) && d[..] == BitsOf(x, n)
  {
    d := new bool[n];
    var rest := x;
    for i := 0 to n
      invariant d[..i] + BitsOf(rest, n - i) == BitsOf(x, n)
    {
      d[i] := rest % 2 == 1;
      assert d[..i + 1] == d[..i] + [rest % 2 == 1];
      rest := rest / 2;
    }
    assert d[..n] + BitsOf(rest, 0) == d[..];
  }

  method CheckBits(code: Code, d: Bits) returns (c: array<bool>)
    requires |d| == LayoutOf(code).data
    ensures fresh(c) && c[..] == Check(LayoutOf(code), d)
  {
    var m := LayoutOf(code).checks;
    c := new bool[m];
    for r := 0 to m
      invariant forall i :: 0 <= i < r ==> c[i] == Check(LayoutOf(code), d)[i]
    {
      XorRowIsCheck(code, r, d);
      c[r] := XorRow(code, r, d, Blocks(code));
    }
  }

  /** Packing from the most significant bit down, as `decc` and `tecc` do. */
  method Pack(c: array<bool>) returns (ecc: nat)
    ensures ecc == Value(c[..])
  {
    ecc := 0;
    var i := c.Length;
    while i > 0
      invariant 0 <= i <= c.Length
      invariant ecc == Value(c[i..])
    {
      i := i - 1;
      assert c[i..][1..] == c[i + 1..];
      ecc := 2 * ecc + (if c[i] then 1 else 0);
    }
    assert c[0..] == c[..];
  }

  /** The seven check bits of a 32-bit word. */
  method Decc(data: int) returns (ecc: nat)
    ensures ecc == CheckValue(Word32, data)
  {
    var d := Unpack(data, 32);
    var dcc := CheckBits(Word32, d[..]);
    ecc := Pack(dcc);
  }

  /** The six check bits of a 22-bit tag. */
  method Tecc(tag: int) returns (ecc: nat)
    ensures ecc == CheckValue(Tag, tag)
  {
    var t := Unpack(tag, 22);
    var tcc := CheckBits(Tag, t[..]);
    ecc := Pack(tcc);
  }

  // ---------------------------------------------------------------- syndrome

  lemma {:induction false} BitsOfJoined(x: int, b: nat, n: nat, k: nat)
    requires b < Power(n)
    ensures BitsOf(x * Power(n) + b, n + k) == BitsOf(b, n) + BitsOf(x, k)
    decreases n
  {
    if n == 0 {
      assert x * Power(0) + b == x;
    } else {
      var y := x * Power(n - 1);
      assert x * Power(n) + b == 2 * y + b by {
        Doubled(x, Power(n - 1));
      }
      assert (2 * y + b) / 2 == y + b / 2 && (2 * y + b) % 2 == b % 2;
      BitsOfJoined(x, b / 2, n - 1, k);
      assert BitsOf(x * Power(n) + b, n + k) == [b % 2 == 1] + BitsOf(y + b / 2, n - 1 + k);
    }
  }

  lemma Doubled(x: int, p: int)
    ensures x * (2 * p) == 2 * (x * p)
  {
  }

  lemma PowerOfEight(n: nat)
    requires n == 8
    ensures Power(n) == 256
  {
    assert Power(n - 7) == 2 && Power(n - 6) == 4 && Power(n - 5) == 8 && Power(n - 4) == 16;
    assert Power(n - 3) == 32 && Power(n - 2) == 64 && Power(n - 1) == 128;
  }

  /** The last byte of a big-endian number holds its low bits. */
  lemma BitsOfBytes(s: seq<Byte>, init: seq<Byte>, byte: Byte, n: nat, k: nat)
    requires s == init + [byte] && n == 8
    ensures BitsOf(BigEndian(s), n + k) == BitsOf(byte, n) + BitsOf(BigEndian(init), k)
  {
    PowerOfEight(n);
    assert s[..|s| - 1] == init;
    BitsOfJoined(BigEndian(init), byte, n, k);
  }

  method UnpackBytes(data: seq<Byte>, n: nat) returns (bits: array<bool>)
    requires n == 8
    ensures fresh(bits) && bits[..] == BitsOf(BigEndian(data), n * |data|)
  {
    bits := new bool[n * |data|];
    var i := |data|;
    var at := 0;
    ghost var whole := BitsOf(BigEndian(data), n * |data|);
    assert data[..i] == data;
    while i > 0
      invariant 0 <= i <= |data| && at == n * (|data| - i)
      invariant bits[..at] + BitsOf(BigEndian(data[..i]), n * i) == whole
    {
      ghost var done, rest := bits[..at], BitsOf(BigEndian(data[..i - 1]), n * (i - 1));
      ByteSplit(data, i, n);
      UnpackByte(bits, at, data[i - 1], n);
      Regroup(done, BitsOf(data[i - 1], n), rest);
      i := i - 1;
      at := at + n;
    }
    assert bits[..at] + BitsOf(BigEndian(data[..0]), 0) == bits[..];
  }

  lemma ByteSplit(data: seq<Byte>, i: nat, n: nat)
    requires 0 < i <= |data| && n == 8
    ensures BitsOf(BigEndian(data[..i]), n * i) == BitsOf(data[i - 1], n) + BitsOf(BigEndian(data[..i - 1]), n * (i - 1))
  {
    assert data[..i] == data[..i - 1] + [data[i - 1]];
    assert n * i == n + n * (i - 1);
    BitsOfBytes(data[..i], data[..i - 1], data[i - 1], n, n * (i - 1));
  }

  method UnpackByte(bits: array<bool>, at: nat, byte: Byte, n: nat)
    requires at + n <= bits.Length
    modifies bits
    ensures bits[..at + n] == old(bits[..at]) + BitsOf(byte, n)
  {
    var ch: int := byte;
    ghost var before := bits[..at];
    assert bits[..at] + BitsOf(ch, n) == before + BitsOf(byte, n);
    for j := 0 to n
      invariant bits[..at + j] + BitsOf(ch, n - j) == before + BitsOf(byte, n)
    {
      ghost var done := bits[..at + j];
      bits[at + j] := ch % 2 == 1;
      assert bits[..at + j + 1] == done + [ch % 2 == 1];
      Regroup(done, [ch % 2 == 1], BitsOf(ch / 2, n - j - 1));
      ch := ch / 2;
    }
    assert bits[..at + n] + BitsOf(ch, 0) == bits[..at + n];
  }

  lemma {:induction false} ValueOfLast(s: Bits, b: bool)
    ensures Value(s + [b]) == Value(s) + (if b then Power(|s|) else 0)
  {
    if s != [] {
      assert (s + [b])[1..] == s[1..] + [b];
      ValueOfLast(s[1..], b);
    }
  }

  /** Packing from the least significant bit up, as `syndrome` does. */
  method PackUp(c: array<bool>) returns (ch: nat)
    ensures ch == Value(c[..])
  {
    ch := 0;
    for i := 0 to c.Length
      invariant ch == Value(c[..i])
    {
      assert c[..i + 1] == c[..i] + [c[i]];
      ValueOfLast(c[..i], c[i]);
      if c[i] {
        ch := ch + Power(i);
      }
    }
    assert c[..c.Length] == c[..];
  }

  /** The check bits of the first four or eight bytes, most significant byte first; over four bytes
      they are those of `decc`. */
  method Syndrome(data: seq<Byte>, fl: bool) returns (ch: nat)
    requires |data| >= if fl then 4 else 8
    ensures ch == if fl then CheckValue(Word32, BigEndian(data[..4])) else CheckValue(Word64, BigEndian(data[..8]))
  {
    var num := if fl then 4 else 8;
    var code := if fl then Word32 else Word64;
    var bits := UnpackBytes(data[..num], 8);
    var byte := CheckBits(code, bits[..]);
    ch := PackUp(byte);
  }

  // ---------------------------------------------------------------- what the check bits are good for

  /** A number with its check bits as a word: check bits first. */
  function Stored(code: Code, x: int, ecc: nat): (w: Bits)
    ensures |w| == LayoutOf(code).checks + LayoutOf(code).data
  {
    BitsOf(ecc, LayoutOf(code).checks) + BitsOf(x, LayoutOf(code).data)
  }

  lemma StoredIsEncoded(code: Code, x: int)
    ensures Stored(code, x, CheckValue(code, x)) == Encode(LayoutOf(code), BitsOf(x, LayoutOf(code).data))
  {
    BitsOfValue(Check(LayoutOf(code), BitsOf(x, LayoutOf(code).data)));
  }

  /** Two numbers that differ in their low bits, each stored with its check bits, differ in at least
      four bits; a stored word has even parity. */
  lemma StoredDistance(code: Code, x: int, y: int)
    ensures BitsOf(x, LayoutOf(code).data) != BitsOf(y, LayoutOf(code).data)
      ==> Distance(Stored(code, x, CheckValue(code, x)), Stored(code, y, CheckValue(code, y))) >= 4
    ensures !Odd(Stored(code, x, CheckValue(code, x)))
  {
    StoredIsEncoded(code, x);
    StoredIsEncoded(code, y);
    LayoutsValid(code);
    EncodedDistance(LayoutOf(code), BitsOf(x, LayoutOf(code).data), BitsOf(y, LayoutOf(code).data));
  }

  /** One wrong bit is corrected to the number stored; two are never taken for none or one. */
  lemma Corrects(code: Code, x: int, y: int, w: Bits)
    requires |w| == LayoutOf(code).checks + LayoutOf(code).data
    requires Distance(w, Stored(code, x, CheckValue(code, x))) <= 1
    requires Distance(w, Stored(code, y, CheckValue(code, y))) <= 2
    ensures BitsOf(x, LayoutOf(code).data) == BitsOf(y, LayoutOf(code).data)
  {
    StoredDistance(code, x, y);
    Triangle(Stored(code, x, CheckValue(code, x)), w, Stored(code, y, CheckValue(code, y)));
  }

  // ---------------------------------------------------------------- the check bits of a single bit

  lemma OnlyBit(lay: Layout, j: nat, d: Bits)
    requires lay.checks > 0 && j < lay.data == |d| && d == Zeros(lay.data)[j := true]
    ensures Check(lay, d) == Column(lay, Position(j))
  {
    OneBit(DataColumns(lay), lay.checks, d, j);
  }

  lemma {:induction false} ValueOfSum(a: Bits, b: Bits)
    ensures Value(a + b) == Value(a) + Power(|a|) * Value(b)
  {
    if a == [] {
      assert a + b == b;
    } else {
      assert (a + b)[1..] == a[1..] + b;
      ValueOfSum(a[1..], b);
      PowerTimes(Power(|a| - 1), Value(b));
    }
  }

  lemma PowerTimes(p: nat, v: nat)
    ensures 2 * (p * v) == (2 * p) * v
  {
  }

  lemma ColumnNumber(code: Code, p: nat)
    requires p < Power(LayoutOf(code).checks - 1)
    ensures code == Tag ==> Value(Column(LayoutOf(code), p)) / 2 == p
    ensures code != Tag ==> Value(Column(LayoutOf(code), p)) % Power(LayoutOf(code).checks - 1) == p
  {
    var n := LayoutOf(code).checks - 1;
    var b := BitsOf(p, n);
    ValueOfBits(p, n);
    if code == Tag {
      ValueOfSum([!Odd(b)], b);
      assert Power(1) == 2;
    } else {
      ValueOfSum(b, [!Odd(b)]);
      TopBit(Power(n), p, Value([!Odd(b)]));
    }
  }

  lemma TopBit(m: nat, p: nat, q: nat)
    requires p < m && q <= 1
    ensures (p + m * q) % m == p
  {
    if q == 1 {
      assert p + m * q == p + m;
    }
  }

  lemma BitChecks(code: Code, j: nat, d: Bits)
    requires j < LayoutOf(code).data && d == BitsOf(Power(j), LayoutOf(code).data)
    ensures Check(LayoutOf(code), d) == Column(LayoutOf(code), Position(j)) && Odd(Check(LayoutOf(code), d))
  {
    var lay := LayoutOf(code);
    BitsOfPower(j, lay.data);
    OnlyBit(lay, j, d);
    ColumnIsOdd(lay, Position(j));
  }

  lemma PositionFits(code: Code, j: nat)
    requires j < LayoutOf(code).data
    ensures Position(j) < Power(LayoutOf(code).checks - 1)
  {
    LayoutsValid(code);
  }

  /** The check bits of a number with a single bit: as a number, without the parity bit, they are the position of
      the bit, and the parity bit makes them odd. Every number is a sum of such, and the checks are linear. */
  lemma ChecksOfBit(code: Code, j: nat, d: Bits, p: nat)
    requires j < LayoutOf(code).data && d == BitsOf(Power(j), LayoutOf(code).data)
    requires j == 0 ==> p == 3
    requires 1 <= j < 4 ==> p == j + 4
    requires 4 <= j < 11 ==> p == j + 5
    requires 11 <= j < 26 ==> p == j + 6
    requires 26 <= j < 57 ==> p == j + 7
    requires 57 <= j ==> p == j + 8
    ensures Odd(Check(LayoutOf(code), d))
    ensures code == Tag ==> CheckValue(code, Power(j)) / 2 == p
    ensures code == Word32 ==> CheckValue(code, Power(j)) % 64 == p
    ensures code == Word64 ==> CheckValue(code, Power(j)) % 128 == p
  {
    BitChecks(code, j, d);
    PositionFits(code, j);
    ColumnNumber(code, p);
    assert Power(6) == 64 && Power(7) == 128;
  }
}
