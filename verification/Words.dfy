/** Eight bytes of a memory line as one 64-bit word, most significant byte first. Shifts and masks
    by whole bytes are multiplication, division and remainder by 256. */
module Words {
  type Byte = b: int | 0 <= b < 256

  const TWO_64 := 0x1_0000_0000_0000_0000

  type Word64 = w: int | 0 <= w < TWO_64

  /** The value of big-endian bytes. */
  function BigEndian(s: seq<Byte>): nat {
    if s == [] then 0 else BigEndian(s[..|s| - 1]) * 256 + s[|s| - 1]
  }

  /** v without its n least significant bytes. */
  function Drop(v: nat, n: nat): nat {
    if n == 0 then v else Drop(v, n - 1) / 256
  }

  /** The eight bytes of a word. */
  function Bytes(v: nat): (s: seq<Byte>)
    ensures |s| == 8
  {
    seq(8, j requires 0 <= j < 8 => Drop(v, 7 - j) % 256)
  }

  lemma {:induction false} PrefixOfBytes(v: nat, n: nat)
    requires v < TWO_64 && n <= 8
    ensures BigEndian(Bytes(v)[..n]) == Drop(v, 8 - n)
  {
    if n == 0 {
      Exhausted(v);
    } else {
      PrefixOfBytes(v, n - 1);
      assert Bytes(v)[..n][..n - 1] == Bytes(v)[..n - 1];
    }
  }

  lemma Exhausted(v: nat)
    requires v < TWO_64
    ensures Drop(v, 8) == 0
  {
    assert Drop(v, 1) < 0x100_0000_0000_0000;
    assert Drop(v, 2) < 0x1_0000_0000_0000;
    assert Drop(v, 3) < 0x100_0000_0000;
    assert Drop(v, 4) < 0x1_0000_0000;
    assert Drop(v, 5) < 0x100_0000;
    assert Drop(v, 6) < 0x1_0000;
  }

  /** Writing a word as bytes and reading the bytes back gives the word. */
  lemma BytesRoundTrip(v: nat)
    requires v < TWO_64
    ensures BigEndian(Bytes(v)) == v
  {
    PrefixOfBytes(v, 8);
    assert Bytes(v)[..8] == Bytes(v);
  }

  lemma {:induction false} BigEndianBound(s: seq<Byte>)
    requires |s| <= 8
    ensures BigEndian(s) < [1, 0x100, 0x1_0000, 0x100_0000, 0x1_0000_0000, 0x100_0000_0000,
                            0x1_0000_0000_0000, 0x100_0000_0000_0000, TWO_64][|s|]
  {
    if s != [] {
      BigEndianBound(s[..|s| - 1]);
    }
  }
}
