/** The check bits that l2warm.cc and mem.c compute with lists of exclusive ors: `decc` over 32 bits,
    `tecc` over a 22-bit tag and `syndrome` over 32 or 64 bits. Each list is shown to be a row of a
    Hamming-numbered code. */
module EccRows {
  import opened LinearCode
  import opened HammingCode

  datatype Code = Word32 | Word64 | Tag

  function LayoutOf(code: Code): (lay: Layout)
    ensures lay.checks > 0
  {
    match code
    case Word32 => Layout(7, 32, false)
    case Word64 => Layout(8, 64, false)
    case Tag => Layout(6, 22, true)
  }

  lemma LayoutsValid(code: Code)
    ensures Valid(LayoutOf(code))
  {
    assert Power(5) == 32 && Power(6) == 64 && Power(7) == 128;
  }

  /** An exclusive or of data bits. */
  datatype Terms = End | Term(bit: nat, rest: Terms)

  /** Whether an odd number of the n low bits of x are set. */
  function OddOnes(x: nat, n: nat): bool
    decreases n
  {
    n > 0 && ((x % 2 == 1) != OddOnes(x / 2, n - 1))
  }

  /** Whether data bit j takes part in check r. */
  function Selected(lay: Layout, r: nat, j: nat): bool
    requires r < lay.checks
  {
    if r == (if lay.parityFirst then 0 else lay.checks - 1) then !OddOnes(Position(j), lay.checks - 1)
    else BitAt(Position(j), if lay.parityFirst then r - 1 else r)
  }

  /** The terms are the data bits from j to n that take part in check r. */
  predicate Lists(lay: Layout, r: nat, terms: Terms, j: nat, n: nat)
    requires r < lay.checks && j <= n
    decreases n - j
  {
    if j == n then terms.End?
    else if Selected(lay, r, j) then terms.Term? && terms.bit == j && Lists(lay, r, terms.rest, j + 1, n)
    else Lists(lay, r, terms, j + 1, n)
  }

  // ---------------------------------------------------------------- the lists of the source, nibble by nibble

  /** Check r of `decc`, and of `syndrome` over four bytes. */
  function Word32Terms(r: nat, b: nat): Terms {
    if r == 0 then
      if b == 0 then Term(0, Term(1, Term(3, End)))
      else if b == 1 then Term(4, Term(6, End))
      else if b == 2 then Term(8, Term(10, Term(11, End)))
      else if b == 3 then Term(13, Term(15, End))
      else if b == 4 then Term(17, Term(19, End))
      else if b == 5 then Term(21, Term(23, End))
      else if b == 6 then Term(25, Term(26, End))
      else Term(28, Term(30, End))
    else if r == 1 then
      if b == 0 then Term(0, Term(2, Term(3, End)))
      else if b == 1 then Term(5, Term(6, End))
      else if b == 2 then Term(9, Term(10, End))
      else if b == 3 then Term(12, Term(13, End))
      else if b == 4 then Term(16, Term(17, End))
      else if b == 5 then Term(20, Term(21, End))
      else if b == 6 then Term(24, Term(25, Term(27, End)))
      else Term(28, Term(31, End))
    else if r == 2 then
      if b == 0 then Term(1, Term(2, Term(3, End)))
      else if b == 1 then Term(7, End)
      else if b == 2 then Term(8, Term(9, Term(10, End)))
      else if b == 3 then Term(14, Term(15, End))
      else if b == 4 then Term(16, Term(17, End))
      else if b == 5 then Term(22, Term(23, End))
      else if b == 6 then Term(24, Term(25, End))
      else Term(29, Term(30, Term(31, End)))
    else if r == 3 then
      if b == 0 then End
      else if b == 1 then Term(4, Term(5, Term(6, Term(7, End))))
      else if b == 2 then Term(8, Term(9, Term(10, End)))
      else if b == 3 then End
      else if b == 4 then Term(18, Term(19, End))
      else if b == 5 then Term(20, Term(21, Term(22, Term(23, End))))
      else if b == 6 then Term(24, Term(25, End))
      else End
    else if r == 4 then
      if b == 0 then End
      else if b == 1 then End
      else if b == 2 then Term(11, End)
      else if b == 3 then Term(12, Term(13, Term(14, Term(15, End))))
      else if b == 4 then Term(16, Term(17, Term(18, Term(19, End))))
      else if b == 5 then Term(20, Term(21, Term(22, Term(23, End))))
      else if b == 6 then Term(24, Term(25, End))
      else End
    else if r == 5 then
      if b == 0 then End
      else if b == 1 then End
      else if b == 2 then End
      else if b == 3 then End
      else if b == 4 then End
      else if b == 5 then End
      else if b == 6 then Term(26, Term(27, End))
      else Term(28, Term(29, Term(30, Term(31, End))))
    else
      if b == 0 then Term(0, Term(1, Term(2, End)))
      else if b == 1 then Term(4, Term(5, Term(7, End)))
      else if b == 2 then Term(10, Term(11, End))
      else if b == 3 then Term(12, Term(14, End))
      else if b == 4 then Term(17, Term(18, End))
      else if b == 5 then Term(21, Term(23, End))
      else if b == 6 then Term(24, Term(26, Term(27, End)))
      else Term(29, End)
  }

  /** Check r of `tecc`. */
  function TagTerms(r: nat, b: nat): Terms {
    if r == 0 then
      if b == 0 then Term(0, Term(1, Term(2, End)))
      else if b == 1 then Term(4, Term(5, Term(7, End)))
      else if b == 2 then Term(10, Term(11, End))
      else if b == 3 then Term(12, Term(14, End))
      else if b == 4 then Term(17, Term(18, End))
      else Term(21, End)
    else if r == 1 then
      if b == 0 then Term(0, Term(1, Term(3, End)))
      else if b == 1 then Term(4, Term(6, End))
      else if b == 2 then Term(8, Term(10, Term(11, End)))
      else if b == 3 then Term(13, Term(15, End))
      else if b == 4 then Term(17, Term(19, End))
      else Term(21, End)
    else if r == 2 then
      if b == 0 then Term(0, Term(2, Term(3, End)))
      else if b == 1 then Term(5, Term(6, End))
      else if b == 2 then Term(9, Term(10, End))
      else if b == 3 then Term(12, Term(13, End))
      else if b == 4 then Term(16, Term(17, End))
      else Term(20, Term(21, End))
    else if r == 3 then
      if b == 0 then Term(1, Term(2, Term(3, End)))
      else if b == 1 then Term(7, End)
      else if b == 2 then Term(8, Term(9, Term(10, End)))
      else if b == 3 then Term(14, Term(15, End))
      else if b == 4 then Term(16, Term(17, End))
      else End
    else if r == 4 then
      if b == 0 then End
      else if b == 1 then Term(4, Term(5, Term(6, Term(7, End))))
      else if b == 2 then Term(8, Term(9, Term(10, End)))
      else if b == 3 then End
      else if b == 4 then Term(18, Term(19, End))
      else Term(20, Term(21, End))
    else
      if b == 0 then End
      else if b == 1 then End
      else if b == 2 then Term(11, End)
      else if b == 3 then Term(12, Term(13, Term(14, Term(15, End))))
      else if b == 4 then Term(16, Term(17, Term(18, Term(19, End))))
      else Term(20, Term(21, End))
  }

  /** Check r of `syndrome` over eight bytes: the low half enters the first six checks and the parity
      as in four bytes. */
  function Word64Terms(r: nat, b: nat): Terms {
    if b >= 8 then Word64HighTerms(r, b)
    else if r < 6 then Word32Terms(r, b)
    else if r == 6 then End
    else Word32Terms(6, b)
  }

  function Word64HighTerms(r: nat, b: nat): Terms {
    if r == 0 then
      if b == 8 then Term(32, Term(34, End))
      else if b == 9 then Term(36, Term(38, End))
      else if b == 10 then Term(40, Term(42, End))
      else if b == 11 then Term(44, Term(46, End))
      else if b == 12 then Term(48, Term(50, End))
      else if b == 13 then Term(52, Term(54, End))
      else if b == 14 then Term(56, Term(57, Term(59, End)))
      else Term(61, Term(63, End))
    else if r == 1 then
      if b == 8 then Term(32, Term(35, End))
      else if b == 9 then Term(36, Term(39, End))
      else if b == 10 then Term(40, Term(43, End))
      else if b == 11 then Term(44, Term(47, End))
      else if b == 12 then Term(48, Term(51, End))
      else if b == 13 then Term(52, Term(55, End))
      else if b == 14 then Term(56, Term(58, Term(59, End)))
      else Term(62, Term(63, End))
    else if r == 2 then
      if b == 8 then Term(32, End)
      else if b == 9 then Term(37, Term(38, Term(39, End)))
      else if b == 10 then Term(40, End)
      else if b == 11 then Term(45, Term(46, Term(47, End)))
      else if b == 12 then Term(48, End)
      else if b == 13 then Term(53, Term(54, Term(55, End)))
      else if b == 14 then Term(56, End)
      else Term(60, Term(61, Term(62, Term(63, End))))
    else if r == 3 then
      if b == 8 then Term(33, Term(34, Term(35, End)))
      else if b == 9 then Term(36, Term(37, Term(38, Term(39, End))))
      else if b == 10 then Term(40, End)
      else if b == 11 then End
      else if b == 12 then Term(49, Term(50, Term(51, End)))
      else if b == 13 then Term(52, Term(53, Term(54, Term(55, End))))
      else if b == 14 then Term(56, End)
      else End
    else if r == 4 then
      if b == 8 then End
      else if b == 9 then End
      else if b == 10 then Term(41, Term(42, Term(43, End)))
      else if b == 11 then Term(44, Term(45, Term(46, Term(47, End))))
      else if b == 12 then Term(48, Term(49, Term(50, Term(51, End))))
      else if b == 13 then Term(52, Term(53, Term(54, Term(55, End))))
      else if b == 14 then Term(56, End)
      else End
    else if r == 5 then
      if b == 8 then Term(32, Term(33, Term(34, Term(35, End))))
      else if b == 9 then Term(36, Term(37, Term(38, Term(39, End))))
      else if b == 10 then Term(40, Term(41, Term(42, Term(43, End))))
      else if b == 11 then Term(44, Term(45, Term(46, Term(47, End))))
      else if b == 12 then Term(48, Term(49, Term(50, Term(51, End))))
      else if b == 13 then Term(52, Term(53, Term(54, Term(55, End))))
      else if b == 14 then Term(56, End)
      else End
    else if r == 6 then
      if b == 8 then End
      else if b == 9 then End
      else if b == 10 then End
      else if b == 11 then End
      else if b == 12 then End
      else if b == 13 then End
      else if b == 14 then Term(57, Term(58, Term(59, End)))
      else Term(60, Term(61, Term(62, Term(63, End))))
    else
      if b == 8 then Term(32, Term(33, End))
      else if b == 9 then Term(36, Term(38, Term(39, End)))
      else if b == 10 then Term(41, End)
      else if b == 11 then Term(44, Term(46, Term(47, End)))
      else if b == 12 then Term(50, Term(51, End))
      else if b == 13 then Term(53, End)
      else if b == 14 then Term(56, Term(57, Term(58, End)))
      else Term(60, Term(63, End))
  }

  /** The part of check r over nibble b of the data. */
  function TermsOf(code: Code, r: nat, b: nat): Terms {
    match code
    case Word32 => Word32Terms(r, b)
    case Word64 => Word64Terms(r, b)
    case Tag => TagTerms(r, b)
  }

  function EndOf(code: Code, b: nat): nat {
    if code == Tag && b >= 5 then 22 else 4 * b + 4
  }

  function Blocks(code: Code): nat {
    match code
    case Word32 => 8
    case Word64 => 16
    case Tag => 6
  }

  /** The first k nibbles of the list of check r hold the right terms. */
  predicate RowLists(code: Code, r: nat, k: nat)
    requires r < LayoutOf(code).checks && k <= Blocks(code)
  {
    k == 0 || (RowLists(code, r, k - 1) && Lists(LayoutOf(code), r, TermsOf(code, r, k - 1), 4 * (k - 1), EndOf(code, k - 1)))
  }

  lemma Positions0()
    ensures Position(0) == 3 && Position(1) == 5 && Position(2) == 6 && Position(3) == 7
    ensures BitAt(3, 0) && BitAt(3, 1) && !BitAt(3, 2) && !BitAt(3, 3) && !BitAt(3, 4) && !BitAt(3, 5)
    ensures BitAt(5, 0) && !BitAt(5, 1) && BitAt(5, 2) && !BitAt(5, 3) && !BitAt(5, 4) && !BitAt(5, 5)
    ensures !BitAt(6, 0) && BitAt(6, 1) && BitAt(6, 2) && !BitAt(6, 3) && !BitAt(6, 4) && !BitAt(6, 5)
    ensures BitAt(7, 0) && BitAt(7, 1) && BitAt(7, 2) && !BitAt(7, 3) && !BitAt(7, 4) && !BitAt(7, 5)
    ensures !OddOnes(3, 6) && !OddOnes(5, 6) && !OddOnes(6, 6) && OddOnes(7, 6)
  {
  }

  lemma Positions2()
    ensures Position(8) == 13 && Position(9) == 14 && Position(10) == 15 && Position(11) == 17
    ensures BitAt(13, 0) && !BitAt(13, 1) && BitAt(13, 2) && BitAt(13, 3) && !BitAt(13, 4) && !BitAt(13, 5)
    ensures !BitAt(14, 0) && BitAt(14, 1) && BitAt(14, 2) && BitAt(14, 3) && !BitAt(14, 4) && !BitAt(14, 5)
    ensures BitAt(15, 0) && BitAt(15, 1) && BitAt(15, 2) && BitAt(15, 3) && !BitAt(15, 4) && !BitAt(15, 5)
    ensures BitAt(17, 0) && !BitAt(17, 1) && !BitAt(17, 2) && !BitAt(17, 3) && BitAt(17, 4) && !BitAt(17, 5)
    ensures OddOnes(13, 6) && OddOnes(14, 6) && !OddOnes(15, 6) && !OddOnes(17, 6)
  {
  }

  lemma Positions3()
    ensures Position(12) == 18 && Position(13) == 19 && Position(14) == 20 && Position(15) == 21
    ensures !BitAt(18, 0) && BitAt(18, 1) && !BitAt(18, 2) && !BitAt(18, 3) && BitAt(18, 4) && !BitAt(18, 5)
    ensures BitAt(19, 0) && BitAt(19, 1) && !BitAt(19, 2) && !BitAt(19, 3) && BitAt(19, 4) && !BitAt(19, 5)
    ensures !BitAt(20, 0) && !BitAt(20, 1) && BitAt(20, 2) && !BitAt(20, 3) && BitAt(20, 4) && !BitAt(20, 5)
    ensures BitAt(21, 0) && !BitAt(21, 1) && BitAt(21, 2) && !BitAt(21, 3) && BitAt(21, 4) && !BitAt(21, 5)
    ensures !OddOnes(18, 6) && OddOnes(19, 6) && !OddOnes(20, 6) && OddOnes(21, 6)
  {
  }

  lemma Positions4()
    ensures Position(16) == 22 && Position(17) == 23 && Position(18) == 24 && Position(19) == 25
    ensures !BitAt(22, 0) && BitAt(22, 1) && BitAt(22, 2) && !BitAt(22, 3) && BitAt(22, 4) && !BitAt(22, 5)
    ensures BitAt(23, 0) && BitAt(23, 1) && BitAt(23, 2) && !BitAt(23, 3) && BitAt(23, 4) && !BitAt(23, 5)
    ensures !BitAt(24, 0) && !BitAt(24, 1) && !BitAt(24, 2) && BitAt(24, 3) && BitAt(24, 4) && !BitAt(24, 5)
    ensures BitAt(25, 0) && !BitAt(25, 1) && !BitAt(25, 2) && BitAt(25, 3) && BitAt(25, 4) && !BitAt(25, 5)
    ensures OddOnes(22, 6) && !OddOnes(23, 6) && !OddOnes(24, 6) && OddOnes(25, 6)
  {
  }

  lemma Positions5()
    ensures Position(20) == 26 && Position(21) == 27 && Position(22) == 28 && Position(23) == 29
    ensures !BitAt(26, 0) && BitAt(26, 1) && !BitAt(26, 2) && BitAt(26, 3) && BitAt(26, 4) && !BitAt(26, 5)
    ensures BitAt(27, 0) && BitAt(27, 1) && !BitAt(27, 2) && BitAt(27, 3) && BitAt(27, 4) && !BitAt(27, 5)
    ensures !BitAt(28, 0) && !BitAt(28, 1) && BitAt(28, 2) && BitAt(28, 3) && BitAt(28, 4) && !BitAt(28, 5)
    ensures BitAt(29, 0) && !BitAt(29, 1) && BitAt(29, 2) && BitAt(29, 3) && BitAt(29, 4) && !BitAt(29, 5)
    ensures OddOnes(26, 6) && !OddOnes(27, 6) && OddOnes(28, 6) && !OddOnes(29, 6)
  {
  }

  lemma Positions8()
    ensures Position(32) == 39 && Position(33) == 40 && Position(34) == 41 && Position(35) == 42
    ensures BitAt(39, 0) && BitAt(39, 1) && BitAt(39, 2) && !BitAt(39, 3) && !BitAt(39, 4) && BitAt(39, 5) && !BitAt(39, 6)
    ensures !BitAt(40, 0) && !BitAt(40, 1) && !BitAt(40, 2) && BitAt(40, 3) && !BitAt(40, 4) && BitAt(40, 5) && !BitAt(40, 6)
    ensures BitAt(41, 0) && !BitAt(41, 1) && !BitAt(41, 2) && BitAt(41, 3) && !BitAt(41, 4) && BitAt(41, 5) && !BitAt(41, 6)
    ensures !BitAt(42, 0) && BitAt(42, 1) && !BitAt(42, 2) && BitAt(42, 3) && !BitAt(42, 4) && BitAt(42, 5) && !BitAt(42, 6)
    ensures !OddOnes(39, 7) && !OddOnes(40, 7) && OddOnes(41, 7) && OddOnes(42, 7)
  {
  }

  lemma Positions9()
    ensures Position(36) == 43 && Position(37) == 44 && Position(38) == 45 && Position(39) == 46
    ensures BitAt(43, 0) && BitAt(43, 1) && !BitAt(43, 2) && BitAt(43, 3) && !BitAt(43, 4) && BitAt(43, 5) && !BitAt(43, 6)
    ensures !BitAt(44, 0) && !BitAt(44, 1) && BitAt(44, 2) && BitAt(44, 3) && !BitAt(44, 4) && BitAt(44, 5) && !BitAt(44, 6)
    ensures BitAt(45, 0) && !BitAt(45, 1) && BitAt(45, 2) && BitAt(45, 3) && !BitAt(45, 4) && BitAt(45, 5) && !BitAt(45, 6)
    ensures !BitAt(46, 0) && BitAt(46, 1) && BitAt(46, 2) && BitAt(46, 3) && !BitAt(46, 4) && BitAt(46, 5) && !BitAt(46, 6)
    ensures !OddOnes(43, 7) && OddOnes(44, 7) && !OddOnes(45, 7) && !OddOnes(46, 7)
  {
  }

  lemma Positions10()
    ensures Position(40) == 47 && Position(41) == 48 && Position(42) == 49 && Position(43) == 50
    ensures BitAt(47, 0) && BitAt(47, 1) && BitAt(47, 2) && BitAt(47, 3) && !BitAt(47, 4) && BitAt(47, 5) && !BitAt(47, 6)
    ensures !BitAt(48, 0) && !BitAt(48, 1) && !BitAt(48, 2) && !BitAt(48, 3) && BitAt(48, 4) && BitAt(48, 5) && !BitAt(48, 6)
    ensures BitAt(49, 0) && !BitAt(49, 1) && !BitAt(49, 2) && !BitAt(49, 3) && BitAt(49, 4) && BitAt(49, 5) && !BitAt(49, 6)
    ensures !BitAt(50, 0) && BitAt(50, 1) && !BitAt(50, 2) && !BitAt(50, 3) && BitAt(50, 4) && BitAt(50, 5) && !BitAt(50, 6)
    ensures OddOnes(47, 7) && !OddOnes(48, 7) && OddOnes(49, 7) && OddOnes(50, 7)
  {
  }

  lemma Positions11()
    ensures Position(44) == 51 && Position(45) == 52 && Position(46) == 53 && Position(47) == 54
    ensures BitAt(51, 0) && BitAt(51, 1) && !BitAt(51, 2) && !BitAt(51, 3) && BitAt(51, 4) && BitAt(51, 5) && !BitAt(51, 6)
    ensures !BitAt(52, 0) && !BitAt(52, 1) && BitAt(52, 2) && !BitAt(52, 3) && BitAt(52, 4) && BitAt(52, 5) && !BitAt(52, 6)
    ensures BitAt(53, 0) && !BitAt(53, 1) && BitAt(53, 2) && !BitAt(53, 3) && BitAt(53, 4) && BitAt(53, 5) && !BitAt(53, 6)
    ensures !BitAt(54, 0) && BitAt(54, 1) && BitAt(54, 2) && !BitAt(54, 3) && BitAt(54, 4) && BitAt(54, 5) && !BitAt(54, 6)
    ensures !OddOnes(51, 7) && OddOnes(52, 7) && !OddOnes(53, 7) && !OddOnes(54, 7)
  {
  }

  lemma Positions12()
    ensures Position(48) == 55 && Position(49) == 56 && Position(50) == 57 && Position(51) == 58
    ensures BitAt(55, 0) && BitAt(55, 1) && BitAt(55, 2) && !BitAt(55, 3) && BitAt(55, 4) && BitAt(55, 5) && !BitAt(55, 6)
    ensures !BitAt(56, 0) && !BitAt(56, 1) && !BitAt(56, 2) && BitAt(56, 3) && BitAt(56, 4) && BitAt(56, 5) && !BitAt(56, 6)
    ensures BitAt(57, 0) && !BitAt(57, 1) && !BitAt(57, 2) && BitAt(57, 3) && BitAt(57, 4) && BitAt(57, 5) && !BitAt(57, 6)
    ensures !BitAt(58, 0) && BitAt(58, 1) && !BitAt(58, 2) && BitAt(58, 3) && BitAt(58, 4) && BitAt(58, 5) && !BitAt(58, 6)
    ensures OddOnes(55, 7) && OddOnes(56, 7) && !OddOnes(57, 7) && !OddOnes(58, 7)
  {
  }

  lemma Positions13()
    ensures Position(52) == 59 && Position(53) == 60 && Position(54) == 61 && Position(55) == 62
    ensures BitAt(59, 0) && BitAt(59, 1) && !BitAt(59, 2) && BitAt(59, 3) && BitAt(59, 4) && BitAt(59, 5) && !BitAt(59, 6)
    ensures !BitAt(60, 0) && !BitAt(60, 1) && BitAt(60, 2) && BitAt(60, 3) && BitAt(60, 4) && BitAt(60, 5) && !BitAt(60, 6)
    ensures BitAt(61, 0) && !BitAt(61, 1) && BitAt(61, 2) && BitAt(61, 3) && BitAt(61, 4) && BitAt(61, 5) && !BitAt(61, 6)
    ensures !BitAt(62, 0) && BitAt(62, 1) && BitAt(62, 2) && BitAt(62, 3) && BitAt(62, 4) && BitAt(62, 5) && !BitAt(62, 6)
    ensures OddOnes(59, 7) && !OddOnes(60, 7) && OddOnes(61, 7) && OddOnes(62, 7)
  {
  }

  lemma Positions14()
    ensures Position(56) == 63 && Position(57) == 65 && Position(58) == 66 && Position(59) == 67
    ensures BitAt(63, 0) && BitAt(63, 1) && BitAt(63, 2) && BitAt(63, 3) && BitAt(63, 4) && BitAt(63, 5) && !BitAt(63, 6)
    ensures BitAt(65, 0) && !BitAt(65, 1) && !BitAt(65, 2) && !BitAt(65, 3) && !BitAt(65, 4) && !BitAt(65, 5) && BitAt(65, 6)
    ensures !BitAt(66, 0) && BitAt(66, 1) && !BitAt(66, 2) && !BitAt(66, 3) && !BitAt(66, 4) && !BitAt(66, 5) && BitAt(66, 6)
    ensures BitAt(67, 0) && BitAt(67, 1) && !BitAt(67, 2) && !BitAt(67, 3) && !BitAt(67, 4) && !BitAt(67, 5) && BitAt(67, 6)
    ensures !OddOnes(63, 7) && !OddOnes(65, 7) && !OddOnes(66, 7) && OddOnes(67, 7)
  {
  }

  lemma Positions15()
    ensures Position(60) == 68 && Position(61) == 69 && Position(62) == 70 && Position(63) == 71
    ensures !BitAt(68, 0) && !BitAt(68, 1) && BitAt(68, 2) && !BitAt(68, 3) && !BitAt(68, 4) && !BitAt(68, 5) && BitAt(68, 6)
    ensures BitAt(69, 0) && !BitAt(69, 1) && BitAt(69, 2) && !BitAt(69, 3) && !BitAt(69, 4) && !BitAt(69, 5) && BitAt(69, 6)
    ensures !BitAt(70, 0) && BitAt(70, 1) && BitAt(70, 2) && !BitAt(70, 3) && !BitAt(70, 4) && !BitAt(70, 5) && BitAt(70, 6)
    ensures BitAt(71, 0) && BitAt(71, 1) && BitAt(71, 2) && !BitAt(71, 3) && !BitAt(71, 4) && !BitAt(71, 5) && BitAt(71, 6)
    ensures !OddOnes(68, 7) && OddOnes(69, 7) && OddOnes(70, 7) && !OddOnes(71, 7)
  {
  }

  lemma Word32Nibble0(r: nat)
    requires r < 7
    ensures Lists(LayoutOf(Word32), r, Word32Terms(r, 0), 0, 4)
  {
    Positions0();
  }

  lemma Word32Nibble1(r: nat)
    requires r < 7
    ensures Lists(LayoutOf(Word32), r, Word32Terms(r, 1), 4, 8)
  {
  }

  lemma Word32Nibble2(r: nat)
    requires r < 7
    ensures Lists(LayoutOf(Word32), r, Word32Terms(r, 2), 8, 12)
  {
    Positions2();
  }

  lemma Word32Nibble3(r: nat)
    requires r < 7
    ensures Lists(LayoutOf(Word32), r, Word32Terms(r, 3), 12, 16)
  {
    Positions3();
  }

  lemma Word32Nibble4(r: nat)
    requires r < 7
    ensures Lists(LayoutOf(Word32), r, Word32Terms(r, 4), 16, 20)
  {
    Positions4();
  }

  lemma Word32Nibble5(r: nat)
    requires r < 7
    ensures Lists(LayoutOf(Word32), r, Word32Terms(r, 5), 20, 24)
  {
    Positions5();
  }

  lemma Word32Nibble6(r: nat)
    requires r < 7
    ensures Lists(LayoutOf(Word32), r, Word32Terms(r, 6), 24, 28)
  {
  }

  lemma Word32Nibble7(r: nat)
    requires r < 7
    ensures Lists(LayoutOf(Word32), r, Word32Terms(r, 7), 28, 32)
  {
  }

  lemma TagNibble0(r: nat)
    requires r < 6
    ensures Lists(LayoutOf(Tag), r, TagTerms(r, 0), 0, 4)
  {
  }

  lemma TagNibble1(r: nat)
    requires r < 6
    ensures Lists(LayoutOf(Tag), r, TagTerms(r, 1), 4, 8)
  {
  }

  lemma TagNibble2(r: nat)
    requires r < 6
    ensures Lists(LayoutOf(Tag), r, TagTerms(r, 2), 8, 12)
  {
  }

  lemma TagNibble3(r: nat)
    requires r < 6
    ensures Lists(LayoutOf(Tag), r, TagTerms(r, 3), 12, 16)
  {
  }

  lemma TagNibble4(r: nat)
    requires r < 6
    ensures Lists(LayoutOf(Tag), r, TagTerms(r, 4), 16, 20)
  {
  }

  lemma TagNibble5(r: nat)
    requires r < 6
    ensures Lists(LayoutOf(Tag), r, TagTerms(r, 5), 20, 22)
  {
  }

  lemma Word64Nibble8(r: nat)
    requires r < 8
    ensures Lists(LayoutOf(Word64), r, Word64HighTerms(r, 8), 32, 36)
  {
    Positions8();
  }

  lemma Word64Nibble9(r: nat)
    requires r < 8
    ensures Lists(LayoutOf(Word64), r, Word64HighTerms(r, 9), 36, 40)
  {
    Positions9();
  }

  lemma Word64Nibble10(r: nat)
    requires r < 8
    ensures Lists(LayoutOf(Word64), r, Word64HighTerms(r, 10), 40, 44)
  {
    Positions10();
  }

  lemma Word64Nibble11(r: nat)
    requires r < 8
    ensures Lists(LayoutOf(Word64), r, Word64HighTerms(r, 11), 44, 48)
  {
    Positions11();
  }

  lemma Word64Nibble12(r: nat)
    requires r < 8
    ensures Lists(LayoutOf(Word64), r, Word64HighTerms(r, 12), 48, 52)
  {
    Positions12();
  }

  lemma Word64Nibble13(r: nat)
    requires r < 8
    ensures Lists(LayoutOf(Word64), r, Word64HighTerms(r, 13), 52, 56)
  {
    Positions13();
  }

  lemma Word64Nibble14(r: nat)
    requires r < 8
    ensures Lists(LayoutOf(Word64), r, Word64HighTerms(r, 14), 56, 60)
  {
    Positions14();
  }

  lemma Word64Nibble15(r: nat)
    requires r < 8
    ensures Lists(LayoutOf(Word64), r, Word64HighTerms(r, 15), 60, 64)
  {
    Positions15();
  }

  /** Numbers below a power of two have no higher bits. */
  lemma {:induction false} SmallNumber(x: nat, n: nat)
    requires x < Power(n)
    ensures !BitAt(x, n) && OddOnes(x, n + 1) == OddOnes(x, n)
    decreases n
  {
    if n > 0 {
      SmallNumber(x / 2, n - 1);
    }
  }

  lemma SameSelection(r: nat, j: nat)
    requires r < 8 && j < 32
    ensures r < 6 ==> Selected(LayoutOf(Word64), r, j) == Selected(LayoutOf(Word32), r, j)
    ensures r == 6 ==> !Selected(LayoutOf(Word64), r, j)
    ensures r == 7 ==> Selected(LayoutOf(Word64), r, j) == Selected(LayoutOf(Word32), 6, j)
  {
    assert Power(6) == 64;
    SmallNumber(Position(j), 6);
  }

  lemma {:induction false} SameLists(r: nat, terms: Terms, j: nat, n: nat)
    requires r < 8 && j <= n <= 32
    requires if r == 6 then terms == End else Lists(LayoutOf(Word32), if r == 7 then 6 else r, terms, j, n)
    ensures Lists(LayoutOf(Word64), r, terms, j, n)
    decreases n - j
  {
    if j < n {
      SameSelection(r, j);
      SameLists(r, if Selected(LayoutOf(Word64), r, j) then terms.rest else terms, j + 1, n);
    }
  }

  lemma {:induction false} SameRow(r: nat, k: nat)
    requires r < 8 && k <= 8 && (r == 6 || RowLists(Word32, if r == 7 then 6 else r, k))
    ensures RowLists(Word64, r, k)
  {
    if k > 0 {
      SameRow(r, k - 1);
      SameLists(r, TermsOf(Word64, r, k - 1), 4 * (k - 1), 4 * k);
    }
  }

  lemma Word64LowListed(r: nat)
    requires r < 8
    ensures RowLists(Word64, r, 8)
  {
    if r != 6 {
      Word32Listed(if r == 7 then 6 else r);
    }
    SameRow(r, 8);
  }

  /** Every list of the source is a row of its code. */
  lemma RowsListed(code: Code, r: nat)
    requires r < LayoutOf(code).checks
    ensures RowLists(code, r, Blocks(code))
  {
    match code
    case Word32 => Word32Listed(r);
    case Word64 => Word64Listed(r);
    case Tag => TagListed(r);
  }

  lemma Word32Listed(r: nat)
    requires r < 7
    ensures RowLists(Word32, r, 8)
  {
    Word32Nibble0(r);
    assert RowLists(Word32, r, 1);
    Word32Nibble1(r);
    assert RowLists(Word32, r, 2);
    Word32Nibble2(r);
    assert RowLists(Word32, r, 3);
    Word32Nibble3(r);
    assert RowLists(Word32, r, 4);
    Word32Nibble4(r);
    assert RowLists(Word32, r, 5);
    Word32Nibble5(r);
    assert RowLists(Word32, r, 6);
    Word32Nibble6(r);
    assert RowLists(Word32, r, 7);
    Word32Nibble7(r);
    assert RowLists(Word32, r, 8);
  }

  lemma TagListed(r: nat)
    requires r < 6
    ensures RowLists(Tag, r, 6)
  {
    TagNibble0(r);
    assert RowLists(Tag, r, 1);
    TagNibble1(r);
    assert RowLists(Tag, r, 2);
    TagNibble2(r);
    assert RowLists(Tag, r, 3);
    TagNibble3(r);
    assert RowLists(Tag, r, 4);
    TagNibble4(r);
    assert RowLists(Tag, r, 5);
    TagNibble5(r);
    assert RowLists(Tag, r, 6);
  }

  lemma Word64Listed(r: nat)
    requires r < 8
    ensures RowLists(Word64, r, 16)
  {
    Word64LowListed(r);
    Word64Nibble8(r);
    assert RowLists(Word64, r, 9);
    Word64Nibble9(r);
    assert RowLists(Word64, r, 10);
    Word64Nibble10(r);
    assert RowLists(Word64, r, 11);
    Word64Nibble11(r);
    assert RowLists(Word64, r, 12);
    Word64Nibble12(r);
    assert RowLists(Word64, r, 13);
    Word64Nibble13(r);
    assert RowLists(Word64, r, 14);
    Word64Nibble14(r);
    assert RowLists(Word64, r, 15);
    Word64Nibble15(r);
    assert RowLists(Word64, r, 16);
  }

  // ---------------------------------------------------------------- exclusive ors are checks

  /** The exclusive or of the bits that the terms name. */
  function XorTerms(d: Bits, terms: Terms): bool {
    terms.Term? && ((terms.bit < |d| && d[terms.bit]) != XorTerms(d, terms.rest))
  }

  lemma {:induction false} OddOnesIsOdd(x: nat, n: nat)
    ensures OddOnes(x, n) == Odd(BitsOf(x, n))
    decreases n
  {
    if n > 0 {
      OddOnesIsOdd(x / 2, n - 1);
      OddCons(x % 2 == 1, BitsOf(x / 2, n - 1));
    }
  }

  lemma SelectedIsColumn(lay: Layout, r: nat, j: nat)
    requires r < lay.checks
    ensures Selected(lay, r, j) == Column(lay, Position(j))[r]
  {
    var p := Position(j);
    OddOnesIsOdd(p, lay.checks - 1);
    ColumnBit(lay, p, r);
  }

  lemma ColumnBit(lay: Layout, p: nat, r: nat)
    requires r < lay.checks
    ensures Column(lay, p)[r] == if r == (if lay.parityFirst then 0 else lay.checks - 1)
      then !Odd(BitsOf(p, lay.checks - 1)) else BitAt(p, if lay.parityFirst then r - 1 else r)
  {
    var n := lay.checks - 1;
    var k := if lay.parityFirst then r - 1 else r;
    if 0 <= k < n {
      BitsOfAt(p, n, k);
    }
  }

  /** Check r over the first n data bits. */
  function CheckTo(lay: Layout, r: nat, d: Bits, n: nat): bool
    requires r < lay.checks && n <= |d|
  {
    n > 0 && (CheckTo(lay, r, d, n - 1) != (d[n - 1] && Selected(lay, r, n - 1)))
  }

  lemma {:induction false} CheckToIsCheck(lay: Layout, r: nat, d: Bits, n: nat)
    requires r < lay.checks && n <= |d| && n <= lay.data
    ensures CheckTo(lay, r, d, n) == Checks(DataColumns(lay), lay.checks, d, n)[r]
  {
    if n > 0 {
      CheckToIsCheck(lay, r, d, n - 1);
      SelectedIsColumn(lay, r, n - 1);
      ChecksStep(DataColumns(lay), lay.checks, d, n, Column(lay, Position(n - 1)), r);
    }
  }

  lemma {:induction false} XorContinuesCheck(lay: Layout, r: nat, terms: Terms, d: Bits, j: nat, n: nat)
    requires r < lay.checks && j <= n <= |d| && Lists(lay, r, terms, j, n)
    ensures CheckTo(lay, r, d, n) == (CheckTo(lay, r, d, j) != XorTerms(d, terms))
    decreases n - j
  {
    if j < n {
      XorContinuesCheck(lay, r, if Selected(lay, r, j) then terms.rest else terms, d, j + 1, n);
    }
  }

  /** The exclusive or of the terms of the first k nibbles of check r. */
  function XorRow(code: Code, r: nat, d: Bits, k: nat): bool {
    k > 0 && (XorRow(code, r, d, k - 1) != XorTerms(d, TermsOf(code, r, k - 1)))
  }

  lemma {:induction false} XorRowTo(code: Code, r: nat, d: Bits, k: nat, n: nat)
    requires r < LayoutOf(code).checks && k <= Blocks(code) && RowLists(code, r, k) && |d| == LayoutOf(code).data
    requires n == if k == 0 then 0 else EndOf(code, k - 1)
    ensures XorRow(code, r, d, k) == CheckTo(LayoutOf(code), r, d, n)
  {
    if k > 0 {
      XorRowTo(code, r, d, k - 1, 4 * (k - 1));
      XorContinuesCheck(LayoutOf(code), r, TermsOf(code, r, k - 1), d, 4 * (k - 1), n);
    }
  }

  /** Each exclusive or that the source writes out is the check of the code. */
  lemma XorRowIsCheck(code: Code, r: nat, d: Bits)
    requires r < LayoutOf(code).checks && |d| == LayoutOf(code).data
    ensures XorRow(code, r, d, Blocks(code)) == Check(LayoutOf(code), d)[r]
  {
    RowsListed(code, r);
    XorRowTo(code, r, d, Blocks(code), |d|);
    CheckToIsCheck(LayoutOf(code), r, d, |d|);
  }
}
