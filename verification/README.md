# A verified model of the PLI memory system

The simulator of this repository talks to C and C++ code through the Verilog programming interface
(`piton/tools/pli`). That code keeps the contents of the simulated memory, fills the caches and DRAM
with encoded data, talks to a reference simulator over a socket and answers the processor cores. This
project models its stateful and algorithmic core in Dafny and proves what it is for.

`dafny verify dfyconfig.toml` checks everything.

| files | what they model |
|---|---|
| `Atoms`, `BTreeSpec`, `BTree` | the B-tree that holds all memory lines (`iop/b_ary.c`), as a tree of values and as nodes updated in place |
| `MemoryPort` | 64-bit reads and writes with one remembered line per thread (`iop/iob_main.cc`) |
| `AvlSpec`, `Avl` | the two copies of the AVL tree (`iop/avl.cc`, `mem/utility.h`), as values and in place |
| `Gf16`, `NibbleColumns`, `NibbleCode`, `CheckNibbles`, `WrongAddress` | the DRAM check nibbles: a code over the field of 16 elements, address parity folded in (`mem/mem.c`) |
| `DramMap`, `StoreParity` | where an address is placed in DRAM, and the check nibbles made up for an empty row (`mem/mem.c`) |
| `Distances`, `LinearCode`, `HammingCode`, `EccRows`, `EccWords` | the single-error-correcting, double-error-detecting codes of cache data, cache tags and register files |
| `CacheLine`, `CacheArray`, `Vuad` | the packed cache words with injected errors, the cache arrays, the packed valid and dirty bits (`iop/l2warm.cc`) |
| `SendBuffer`, `StepReader`, `EventQueue` | the two directions of the socket and the event list (`socket/bw_socket.c`, `socket/list.c`) |
| `CpxLink` | the request and grant protocol towards the cores (`iop/iob.cc`, `iop/cpx.cc`) |
| `Sampler` | the quota-driven random choice of when to inject an error |
| `Sequences`, `Words` | facts about sequences and bytes that several of these share |

Each structure that the source updates in place is a class whose methods are proved against functions
on values; the laws are then lemmas about those functions, for all inputs and all runs. Random numbers,
what the socket accepts, and the values on input wires are parameters, so every theorem holds for all
of them.

## Model

| member | source | states |
|---|---|---|
| `BTreeSpec.InsertBelowInOrder` | piton/tools/pli/iop/b_ary.c:129-157 | insertion below a node, with any splits on the way, is insertion into the sorted sequence of its atoms, and nothing if the key is there |
| `BTreeSpec.InsertBelowBalanced` | piton/tools/pli/iop/b_ary.c:81-157 | every leaf keeps its depth and every node below the root between ORDER and MAX atoms |
| `BTreeSpec.InsertCorrect` | piton/tools/pli/iop/b_ary.c:162-177 | an insertion at the root, new root or not, keeps a search tree whose height grows by at most one, and adds exactly the new atom |
| `BTreeSpec.FindIsLookup` | piton/tools/pli/iop/b_ary.c:181-191 | descending by the scans of the nodes finds exactly what the sorted sequence of all atoms holds |
| `BTreeSpec.BuildCorrect` | piton/tools/pli/iop/b_ary.c:29-191 | after any run of insertions the tree is balanced and sorted and finds, for every key, the first atom inserted under it |
| `BTreeSpec.FirstWithIs` | piton/tools/pli/iop/b_ary.c:135 | the first atom under a key is the one before which no other carries the key |
| `BTree.TreeNode.Copy` | piton/tools/pli/iop/b_ary.c:42-60 | copying between overlapping ranges of a node moves the old contents and nothing else, and does nothing if the ranges differ in length |
| `BTree.TreeNode.Scan` | piton/tools/pli/iop/b_ary.c:64-76 | the binary search returns the number of atoms with keys up to the given one and whether the last of them has it |
| `BTree.TreeNode.AddAtom` | piton/tools/pli/iop/b_ary.c:81-125 | an atom and a right child go in at their index; a full node splits into two half-full ones around the middle atom |
| `BTree.TreeNode.InsertAtom` | piton/tools/pli/iop/b_ary.c:129-157 | the recursive insertion on the heap gives the tree that insertion on values gives, and touches no node outside its own |
| `BTree.OrderedIndex.Insert` | piton/tools/pli/iop/b_ary.c:162-177 | the heap B-tree is a map: an atom is filed if its key is new, every other entry stays |
| `BTree.OrderedIndex.Find` | piton/tools/pli/iop/b_ary.c:181-191 | returns the atom filed under the key, null exactly if there is none |
| `MemoryPort.GetEightByte` | piton/tools/pli/iop/iob_main.cc:396-407 | the big-endian number of the eight aligned bytes that hold the key |
| `MemoryPort.WriteEightByte` | piton/tools/pli/iop/iob_main.cc:409-425 | the eight aligned bytes become the big-endian bytes of the value, no other byte of the line changes |
| `MemoryPort.WordAfterStore` | piton/tools/pli/iop/iob_main.cc:502-550 | after a store, the words whose keys agree with its key in bits 3 to 39 read as the value stored, every other word as before, in new and in old lines |
| `MemoryPort.MemoryIsLastWrite` | piton/tools/pli/iop/iob_main.cc:502-550 | after any run every word is that of a flat memory of 2^37 slots: the last one written to its slot, or the loaded one, or 0 |
| `MemoryPort.LineAndOffset` | piton/tools/pli/iop/iob_main.cc:396-433 | line number and offset make up the address, cut to 40 bits and aligned to 8 bytes |
| `MemoryPort.SameSlotIff` | piton/tools/pli/iop/iob_main.cc:396-433 | two keys share a slot exactly if they agree in bits 3 to 39 |
| `MemoryPort.WordIsInLine` | piton/tools/pli/iop/iob_main.cc:396-407 | the word at a key is the big-endian number of the eight bytes of its line from its aligned address on |
| `MemoryPort.WordIsAbsent` | piton/tools/pli/iop/iob_main.cc:451-453 | a word of a line that is not there is 0 |
| `MemoryPort.Port.Access` | piton/tools/pli/iop/iob_main.cc:429-453 | a read through the remembered line returns what the B-tree holds; it dereferences no line exactly if the line number is the start value and the thread never found a line |
| `MemoryPort.Port.Write` | piton/tools/pli/iop/iob_main.cc:502-550 | a write changes one slot of the memory and leaves no thread with a stale line |
| `MemoryPort.Port.Replay` | piton/tools/pli/iop/iob_main.cc:429-550 | any interleaving of reads by all threads and writes returns what the flat memory holds, with the unset line pointer as the only exception, exactly when it occurs |
| `MemoryPort.AllWords` | piton/tools/pli/iop/iob_main.cc:429-453 | with a start value that is no line number, or no read of that line, every read returns a word |
| `MemoryPort.FirstReadOfLineZero` | piton/tools/pli/iop/iob_main.cc:125 | the failing input: a first read of line 0 when the remembered line numbers start at 0 |
| `AvlSpec.LeftCallSafe` | piton/tools/pli/iop/avl.cc:102-121 | whenever the cached heights call balance_left, all nodes it dereferences exist, although its third case rotates the wrong way |
| `AvlSpec.RightCallSafe` | piton/tools/pli/iop/avl.cc:78-97 | the same of balance_right |
| `AvlSpec.BalanceLeftCases` | piton/tools/pli/iop/avl.cc:102-121 | the tree and the cached heights that each case of balance_left leaves, and the case of a child that is not turned |
| `AvlSpec.BalanceRightCases` | piton/tools/pli/iop/avl.cc:78-97 | the tree and the cached heights that each case of balance_right leaves |
| `AvlSpec.CachedHeight` | piton/tools/pli/iop/avl.cc:125-134 | the cached height is one more than the larger of the children, that of a missing child -1 |
| `AvlSpec.InsertCorrect` | piton/tools/pli/iop/avl.cc:138-162 | insertion keeps the search order and changes the answer for its own key only |
| `AvlSpec.BuildCorrect` | piton/tools/pli/iop/avl.cc:138-195 | after any run the keys are strictly sorted and a search returns the last value inserted under its key, or the first with the policy of the other copy |
| `AvlSpec.LastIsFiled` | piton/tools/pli/iop/avl.cc:151-154 | with overwriting, the value filed is that of the last call with the key |
| `AvlSpec.FirstIsFiled` | piton/tools/pli/mem/utility.h:263 | without, that of the first |
| `AvlSpec.InsertKeepsAvl` | piton/tools/pli/iop/avl.cc:125-162 | an insertion that does not call balance_left keeps the tree balanced with exact cached heights and grows it exactly when predicted |
| `AvlSpec.InsertAvlIff` | piton/tools/pli/iop/avl.cc:102-162 | from a balanced tree, an insertion gives a balanced tree with exact cached heights if and only if it tips no node to the left |
| `AvlSpec.AlwaysAvlIff` | piton/tools/pli/iop/avl.cc:102-162 | a run of insertions keeps the tree balanced throughout if and only if none of them tips a node to the left |
| `AvlSpec.IncreasingKeysStayBalanced` | piton/tools/pli/iop/avl.cc:78-162 | strictly increasing keys always give a balanced tree |
| `AvlSpec.DecreasingKeysBreak` | piton/tools/pli/iop/avl.cc:114-120 | the failing input: three decreasing keys |
| `AvlSpec.ThirdKeyDown` | piton/tools/pli/iop/avl.cc:114-120 | what a third, smallest key leaves: a balanced shape with wrong cached heights |
| `AvlSpec.ThirdKeyBetween` | piton/tools/pli/iop/avl.cc:110-113 | what a third key between the two leaves: a shape that is not balanced |
| `AvlSpec.FourthKeyRestores` | piton/tools/pli/iop/avl.cc:102-162 | exact heights can come back: a fourth decreasing key restores them |
| `Avl.AvlNode.Rebalance` | piton/tools/pli/iop/avl.cc:78-134 | the rotations and corrections on the heap give the tree that the functions on values give |
| `Avl.AvlNode.Insert` | piton/tools/pli/mem/utility.h:254-271 | the recursive insertion on the heap is insertion on values, in both variants of what an existing key does |
| `Avl.AvlTree.Insert` | piton/tools/pli/iop/avl.cc:166-169 | the tree after one more entry, with the search order kept; the nodes added are new |
| `Avl.AvlTree.InsertAll` | piton/tools/pli/iop/avl.cc:138-169 | any number of insertions into one heap tree |
| `Avl.AvlTree.Search` | piton/tools/pli/iop/avl.cc:173-195 | returns what the entries so far leave under the key, nothing exactly if they leave nothing |
| `Gf16.Associates` | piton/tools/pli/mem/mem.c:125-140 | the shift-and-reduce product of nibbles is associative: with its units and inverses the nibbles are a field |
| `Gf16.FourthPower` | piton/tools/pli/mem/mem.c:74 | the field is that of the primitive polynomial x^4 + x + 1 |
| `Gf16.InverseCorrect` | piton/tools/pli/mem/mem.c:153-167 | the tabulated coefficients of the fourth check are the inverses of those of the first |
| `NibbleColumns.Independent` | piton/tools/pli/mem/mem.c:113-186 | any three of the 36 columns of the check matrix are linearly independent |
| `NibbleCode.CosetDistance` | piton/tools/pli/mem/mem.c:113-190 | words with equal checks are equal or differ in at least four nibbles |
| `NibbleCode.MinimumDistance` | piton/tools/pli/mem/mem.c:113-190 | two different codewords differ in at least four of their 36 nibbles |
| `NibbleCode.Corrects` | piton/tools/pli/mem/mem.c:113-190 | a word at most one nibble from a codeword is more than two from every other: one wrong nibble is corrected, two are never taken for one |
| `NibbleCode.HammingDistance` | piton/tools/pli/mem/mem.c:63-191 | different data with their check nibbles differ in at least four nibbles |
| `CheckNibbles.Multiply` | piton/tools/pli/mem/mem.c:125-140 | the two loops over the bits of a product compute the product in the field |
| `CheckNibbles.NibblesInjective` | piton/tools/pli/mem/mem.c:109-112 | splitting 16 bytes into 32 nibbles loses nothing |
| `CheckNibbles.NibblesOfWord` | piton/tools/pli/mem/mem.c:109-112 | every byte is made of its two nibbles, the low one first, the last byte first |
| `CheckNibbles.Hamming` | piton/tools/pli/mem/mem.c:107-191 | the four loops compute the four checks of the code, in the order in which they are stored |
| `CheckNibbles.ChecksOfNibble` | piton/tools/pli/mem/mem.c:113-190 | the four check nibbles of a word with a single nibble, with explicit coefficients; every word is a sum of such |
| `CheckNibbles.ChecksOfOne` | piton/tools/pli/mem/mem.c:109-190 | the check nibbles of fifteen zero bytes and a last byte 1 |
| `CheckNibbles.AddrParity` | piton/tools/pli/mem/mem.c:195-225 | every check nibble is inverted exactly if an odd number of the address bits is set |
| `StoreParity.BitsThatCount` | piton/tools/pli/mem/mem.c:207-210 | flipping an address bit flips the parity exactly if the bit counts: 8 to 39, with two channels 7 to 39, for a row key 2 to 33 |
| `CheckNibbles.StoredOrder` | piton/tools/pli/mem/mem.c:187-221 | the stored order permutes the checks and the address parity folds into all alike |
| `CheckNibbles.StoredDistance` | piton/tools/pli/mem/mem.c:63-225 | two 16-byte words stored under one address parity differ in at least four nibbles |
| `CheckNibbles.SyndromeOfStored` | piton/tools/pli/mem/mem.c:195-225 | reading back finds nothing wrong exactly if the parity of the address is the one stored; otherwise every check is 0xf |
| `CheckNibbles.SyndromeOfWrongNibble` | piton/tools/pli/mem/mem.c:63-225 | one wrong nibble leaves some check zero, but not all |
| `CheckNibbles.MismatchIsNoWrongNibble` | piton/tools/pli/mem/mem.c:195-225 | a wrong address parity never looks like a wrong nibble of any word |
| `WrongAddress.OneNibbleShows` | piton/tools/pli/mem/mem.c:63-225 | with the right address, at most one wrong nibble has the syndrome of one nibble |
| `WrongAddress.MismatchAndWrongNibble` | piton/tools/pli/mem/mem.c:63-225 | a wrong address parity together with one wrong nibble is taken for one wrong nibble, or none, if and only if the nibble is off by 0xf and is one of twelve |
| `DramMap.HashTwice` | piton/tools/pli/mem/mem.c:1045-1066 | the bank hash is its own inverse on 40-bit addresses |
| `DramMap.EightHashBank` | piton/tools/pli/mem/mem.c:1051-1059 | flipping any of the three bank bits flips them in the hashed address |
| `DramMap.EightHashMiddle` | piton/tools/pli/mem/mem.c:1051-1059 | flipping bits of the group from 18 on flips them and the bank bits |
| `DramMap.EightHashHigh` | piton/tools/pli/mem/mem.c:1051-1059 | the same of the group from 28 on |
| `DramMap.EightHashOthers` | piton/tools/pli/mem/mem.c:1051-1059 | every other bit is passed on |
| `DramMap.FourHashBank` | piton/tools/pli/mem/mem.c:1061-1065 | flipping any of the two bank bits flips them in the hashed address |
| `DramMap.FourHashMiddle` | piton/tools/pli/mem/mem.c:1061-1065 | flipping bits of the group from 18 on flips them and the bank bits |
| `DramMap.FourHashHigh` | piton/tools/pli/mem/mem.c:1061-1065 | the same of the group from 28 on |
| `DramMap.FourHashOthers` | piton/tools/pli/mem/mem.c:1061-1065 | every other bit is passed on |
| `DramMap.PlaceInjective` | piton/tools/pli/mem/mem.c:1068-1118 | with rank and stack bits at their old position, different aligned addresses in range have different places |
| `DramMap.RangeIsExact` | piton/tools/pli/mem/mem.c:1074-1112 | the ranges (40, 36 or 37 bits) cannot be extended: the first address beyond shares the place of one inside |
| `DramMap.HighPlaceInjective` | piton/tools/pli/mem/mem.c:1069-1112 | with those bits above the row and apart from it, different aligned addresses in range have different places |
| `DramMap.HighCollision` | piton/tools/pli/mem/mem.c:1108-1112 | for every other row size two aligned addresses in range share a place |
| `DramMap.HighRangeIsExact` | piton/tools/pli/mem/mem.c:1069-1112 | these ranges cannot be extended either: the first address beyond shares the place of 0 |
| `DramMap.Cal4Channel` | piton/tools/pli/mem/mem.c:1035-1119 | row key, bank and cell are the place whose injectivity is proved, for both positions |
| `DramMap.CellBits` | piton/tools/pli/mem/mem.c:1113-1114 | address bits 6 and 7 select the bank, bit 3 the upper half of its cells |
| `DramMap.SingleType` | piton/tools/pli/mem/mem.c:1069-1078 | where each address bit goes when dram_type says: no rank or stack bits; the chip select ends up at key bits 29 and 30 |
| `DramMap.StackedThreeType` | piton/tools/pli/mem/mem.c:1079-1082 | where each address bit goes when dram_type says: stack bit 11; the chip select ends up at key bits 29 and 30 |
| `DramMap.StackedTwoType` | piton/tools/pli/mem/mem.c:1083-1086 | where each address bit goes when dram_type says: stack bit 10; the chip select ends up at key bits 29 and 30 |
| `DramMap.RankedThreeType` | piton/tools/pli/mem/mem.c:1088-1091 | where each address bit goes when dram_type says: rank bit 11; the chip select ends up at key bits 29 and 30 |
| `DramMap.RankedTwoType` | piton/tools/pli/mem/mem.c:1092-1095 | where each address bit goes when dram_type says: rank bit 10; the chip select ends up at key bits 29 and 30 |
| `DramMap.StackedRankedThreeType` | piton/tools/pli/mem/mem.c:1097-1100 | where each address bit goes when dram_type says: both bits, 11 and 12; the chip select ends up at key bits 29 and 30 |
| `DramMap.StackedRankedTwoType` | piton/tools/pli/mem/mem.c:1101-1104 | where each address bit goes when dram_type says: both bits, 10 and 11; the chip select ends up at key bits 29 and 30 |
| `DramMap.KeysOfOneAddress` | piton/tools/pli/mem/mem.c:1072-1112 | the row keys of address 0x400 for three configurations |
| `DramMap.HighWires0` | piton/tools/pli/mem/mem.c:1070-1112 | where each address bit goes with the rank and stack bits above a row of 24 bits |
| `DramMap.HighWires1` | piton/tools/pli/mem/mem.c:1070-1112 | where each address bit goes with the rank and stack bits above a row of 25 bits |
| `DramMap.HighWires2` | piton/tools/pli/mem/mem.c:1070-1112 | where each address bit goes with the rank and stack bits above a row of 26 bits |
| `DramMap.HighWires3` | piton/tools/pli/mem/mem.c:1070-1112 | where each address bit goes with the rank and stack bits above a row of 27 bits |
| `DramMap.HighWires4` | piton/tools/pli/mem/mem.c:1070-1112 | where each address bit goes with the rank and stack bits above a row of 28 bits |
| `DramMap.HighWires5` | piton/tools/pli/mem/mem.c:1070-1112 | where each address bit goes with the rank and stack bits above a row of 29 bits |
| `DramMap.HighWires6` | piton/tools/pli/mem/mem.c:1070-1112 | where each address bit goes with the rank and stack bits above a row of 30 bits |
| `DramMap.HighWires7` | piton/tools/pli/mem/mem.c:1070-1112 | where each address bit goes with the rank and stack bits above a row of 31 bits |
| `DramMap.HighWires8` | piton/tools/pli/mem/mem.c:1070-1112 | where each address bit goes with the rank and stack bits above a row of 32 bits |
| `StoreParity.StoreParityAgrees` | piton/tools/pli/mem/mem.c:370-408 | with four channels and the old position of rank and stack bits, in every mode: the parity computed from the row key of an address is that of the address exactly if it is not `Wrong`, a condition on a few bits of the address |
| `StoreParity.WrongBits` | piton/tools/pli/mem/mem.c:371-408 | which address bits decide whether it is `Wrong`, in every mode |
| `StoreParity.StoreChecks` | piton/tools/pli/mem/mem.c:369-408 | the check nibbles made up for 16 bytes of a row are the checks with the parity of the row key folded in |
| `StoreParity.StoreBothWays` | piton/tools/pli/mem/mem.c:1438-1439 | the check nibbles made up through the row key are those of a direct store exactly if the address is not `Wrong` |
| `StoreParity.UnluckyIsWrong` | piton/tools/pli/mem/mem.c:370-408 | the failing inputs: one address in range for every mode |
| `LinearCode.CosetDistance` | piton/tools/pli/iop/l2warm.cc:314-395 | with different odd columns, words with equal checks are equal or differ in at least four bits |
| `LinearCode.ParityOfChecks` | piton/tools/pli/iop/l2warm.cc:314-395 | the parity of the checks is the parity of the word |
| `HammingCode.LayoutIsSecDed` | piton/tools/pli/iop/l2warm.cc:314-395 | every layout of positions and parity that fits has different odd columns |
| `HammingCode.CodewordIffEncoded` | piton/tools/pli/mem/mem.c:1897-1999 | a word passes all checks exactly if its check bits are those of its data |
| `HammingCode.EncodedDistance` | piton/tools/pli/iop/l2warm.cc:314-395 | different data with their check bits differ in at least four bits, and every word has even parity |
| `HammingCode.SyndromeOfErrors` | piton/tools/pli/iop/l2warm.cc:314-395 | one wrong bit has the odd syndrome of its position and of no other; two have an even one that is not zero |
| `EccRows.RowsListed` | piton/tools/pli/iop/l2warm.cc:321-347 | each list of exclusive ors in the source names exactly the data bits whose position has the bit of that check |
| `EccRows.XorRowIsCheck` | piton/tools/pli/iop/l2warm.cc:321-347 | so each list computes its check of the code |
| `EccWords.Decc` | piton/tools/pli/iop/l2warm.cc:314-355 | the seven check bits of a 32-bit word |
| `EccWords.Tecc` | piton/tools/pli/iop/l2warm.cc:362-395 | the six check bits of a cache tag |
| `EccWords.Syndrome` | piton/tools/pli/mem/mem.c:1897-1999 | the check bits of four or of eight bytes |
| `EccWords.ChecksOfBit` | piton/tools/pli/iop/l2warm.cc:321-347 | the check bits of a number with a single bit are the position of the bit and a parity bit that makes them odd, for all three codes |
| `EccWords.StoredDistance` | piton/tools/pli/iop/l2warm.cc:314-395 | different numbers stored with their check bits differ in at least four bits, for all three codes |
| `EccWords.Corrects` | piton/tools/pli/mem/mem.c:1897-1999 | a word at most one bit from what is stored for a number is more than two from what is stored for any other |
| `CacheLine.CheckParity` | piton/tools/pli/iop/l2warm.cc:279-287 | whether an odd number of the low bits is set |
| `CacheLine.ParityOfSegment` | piton/tools/pli/iop/l2warm.cc:236-287 | a clean segment has even parity, one with a single injected error odd parity |
| `CacheLine.InjectionIsCorrectable` | piton/tools/pli/iop/l2warm.cc:236-245 | an injected error is one bit from its codeword, and no other codeword is within two |
| `CacheLine.InjectionIsUncorrectable` | piton/tools/pli/iop/l2warm.cc:594-669 | the segment hit twice is detected as uncorrectable exactly if the two rolls pick different bits |
| `CacheLine.RollsReach` | piton/tools/pli/iop/l2warm.cc:228-245 | which bit a random number reaches, and which segment is struck twice |
| `CacheLine.StruckBits` | piton/tools/pli/iop/l2warm.cc:617-643 | a line stored with errors differs from the clean one in exactly one bit of each segment, at stated places |
| `CacheLine.PackedRoundTrip` | piton/tools/pli/iop/l2warm.cc:594-669 | unpacking the packed bytes of any bits gives them back, followed by zeros for the padding of the last byte |
| `CacheLine.LineRoundTrip` | piton/tools/pli/iop/l2warm.cc:1220-1249 | reading the data bits of a laid-out line gives its 16 bytes |
| `CacheLine.LineLayout` | piton/tools/pli/iop/l2warm.cc:608-643 | where the check bits and the data bits of each four bytes stand in the word |
| `CacheLine.ByteInLine` | piton/tools/pli/iop/l2warm.cc:600-643 | where each byte of the line stands in the word |
| `CacheArray.Inject` | piton/tools/pli/iop/l2warm.cc:236-245 | exactly one bit of the segment is flipped, or none without errors |
| `CacheArray.AdjustData` | piton/tools/pli/iop/l2warm.cc:594-669 | the packed word is the four encoded segments of the line with the errors the rolls ask for |
| `CacheArray.DataArray.SlamRealData` | piton/tools/pli/iop/l2warm.cc:681-705 | a 64-byte line is stored as four words in the four sub-banks from the current one on, downwards |
| `CacheArray.DataArray.GetData` | piton/tools/pli/iop/l2warm.cc:1230-1249 | the data bits of the four words, sub-bank 3 first |
| `CacheArray.Pack4Bytes` | piton/tools/pli/iop/l2warm.cc:1204-1214 | the four bytes of the 32 bits that end at an index |
| `CacheArray.DataArray.SlamAndGet` | piton/tools/pli/iop/l2warm.cc:681-705 | without injected errors a line is read back rotated by the sub-bank at which writing began |
| `CacheArray.RoundTrip` | piton/tools/pli/iop/l2warm.cc:1230-1249 | the same for any array, whatever it held |
| `CacheArray.BlocksListed` | piton/tools/pli/iop/l2warm.cc:681-705 | which sixteen bytes are written n-th and into which sub-bank |
| `CacheArray.UnrotatedIffZero` | piton/tools/pli/iop/l2warm.cc:681-705 | every line is read back unchanged if and only if writing began at sub-bank 0 |
| `CacheArray.SlammedElsewhere` | piton/tools/pli/iop/l2warm.cc:681-705 | no word of any other line changes |
| `CacheArray.Overrun` | piton/tools/pli/iop/l2warm.cc:1234-1245 | the twenty bytes of a stored word unpack into its 156 bits and four zeros, for which the array has no room |
| `Vuad.ExtractField` | piton/tools/pli/iop/l2warm.cc:496-510 | every fourth bit of a half of the entry |
| `Vuad.IntegrateField` | piton/tools/pli/iop/l2warm.cc:515-527 | puts the field back and changes no other bit |
| `Vuad.Mark` | piton/tools/pli/iop/l2warm.cc:429-446 | sets the bit of a way and recomputes the parity |
| `Vuad.UpdatedVd` | piton/tools/pli/iop/l2warm.cc:553-569 | unpack, mark and pack give the entry with one way of one line marked |
| `Vuad.FieldOfUpdated` | piton/tools/pli/iop/l2warm.cc:553-569 | of the eight interleaved fields only those of the line change |
| `Vuad.MarkedBits` | piton/tools/pli/iop/l2warm.cc:496-569 | where the valid and dirty bit of each way of each word stands in the entry, and that only those of the way change |
| `Vuad.SameCell` | piton/tools/pli/iop/l2warm.cc:729-745 | two lines share an entry and a position in it only if they are the same line |
| `Vuad.CellOfIndex` | piton/tools/pli/iop/l2warm.cc:732-735 | subarray, entry and word are the index in mixed radix |
| `Vuad.OneSlamMore` | piton/tools/pli/iop/l2warm.cc:729-745 | one call more keeps the packed array equal to the table of all marks |
| `Vuad.DecideBits` | piton/tools/pli/iop/l2warm.cc:736-743 | the bits to mark from the random number and the switches: never neither |
| `Vuad.DecisionsListed` | piton/tools/pli/iop/l2warm.cc:736-743 | what is decided from the random number without switches, and by each switch |
| `Vuad.VuadArray.SlamVuad` | piton/tools/pli/iop/l2warm.cc:729-745 | keeps that equality on the array itself, with the bits it decides to mark |
| `Vuad.VuadArray.Read` | piton/tools/pli/iop/l2warm.cc:496-510 | after any run a way's bit is set exactly if some call set it, and the parity bit is right |
| `SendBuffer.Socket.CopyPacket` | piton/tools/pli/socket/bw_socket.c:2672-2677 | appends the bytes to the reserved buffer |
| `SendBuffer.Socket.SendSocketNfd` | piton/tools/pli/socket/bw_socket.c:2524-2545 | what the socket took and what stays in the buffer are the old contents, in order |
| `SendBuffer.Socket.Packed` | piton/tools/pli/socket/bw_socket.c:2681-2703 | moves bytes from the list to the buffer without changing the pending stream, until one is full or empty |
| `SendBuffer.Socket.AddNode` | piton/tools/pli/socket/bw_socket.c:2707-2733 | appends the bytes to the pending stream, filling the last node first and reusing freed ones |
| `SendBuffer.Socket.HandleBuf` | piton/tools/pli/socket/bw_socket.c:2737-2767 | sent bytes and pending bytes are the old pending bytes and the new ones, in order; the socket is tried exactly for a retry, a quit or enough bytes, and what it takes is sent |
| `SendBuffer.Socket.SendCommand` | piton/tools/pli/socket/bw_socket.c:2886-2891 | the same for a command: a retry adds nothing, a quit discards what is pending |
| `SendBuffer.TriesListed` | piton/tools/pli/socket/bw_socket.c:2741-2753 | which commands make the socket be tried, and how much it takes |
| `SendBuffer.Socket.Run` | piton/tools/pli/socket/bw_socket.c:2672-2891 | over any run, however much the socket takes at a time, the bytes sent since the last quit and the pending ones are the bytes of all commands since, in order |
| `SendBuffer.Socket.Drain` | piton/tools/pli/socket/bw_socket.c:2524-2767 | nothing is kept for ever: retries over a socket that takes at least k bytes at a time send all that is pending, in order, after one call for every k bytes |
| `StepReader.LinesOfJoin` | piton/tools/pli/socket/bw_socket.c:1016-1023 | taking lines off the text one at a time splits the whole text, wherever it was cut when it arrived |
| `StepReader.LineAtNewline` | piton/tools/pli/socket/bw_socket.c:1016-1023 | a line ends at the next newline |
| `StepReader.KindsOfLine` | piton/tools/pli/socket/bw_socket.c:1032-1043 | what is a STEP line and what a register value |
| `StepReader.ThreadOfWritten` | piton/tools/pli/socket/bw_socket.c:851-852 | a STEP line written with the decimal digits of a thread number is read as one for that thread |
| `StepReader.LineOfThreadTen` | piton/tools/pli/socket/bw_socket.c:459-471 | one such line |
| `StepReader.Reader.Receive` | piton/tools/pli/socket/bw_socket.c:1099-1128 | more text, cut anywhere, keeps the invariant |
| `StepReader.Reader.DataInList` | piton/tools/pli/socket/bw_socket.c:865-895 | hands over the first kept line of the thread and leaves the others in order |
| `StepReader.Reader.OneStep` | piton/tools/pli/socket/bw_socket.c:847-861 | a STEP line is handed over if it is the next of the thread that asked, and kept otherwise |
| `StepReader.Reader.WhichData` | piton/tools/pli/socket/bw_socket.c:986-1096 | a call hands over a line of the kind it asked for, and nothing only if none has arrived |
| `StepReader.Reader.Conserved` | piton/tools/pli/socket/bw_socket.c:986-1096 | at any time the STEP lines of a thread handed over, kept and still to be read are those of all text received, in its order; so are the register values |
| `EventQueue.PlaceCorrect` | piton/tools/pli/socket/list.c:144-173 | where each node is after one was moved |
| `EventQueue.MovedKeeps` | piton/tools/pli/socket/list.c:311-359 | moving a node keeps all nodes and the order of all the others |
| `EventQueue.Queue.Pop` | piton/tools/pli/socket/list.c:52-58 | takes the first node off the linked list |
| `EventQueue.Queue.Push` | piton/tools/pli/socket/list.c:62-71 | puts a node at the end, also after the list has run empty |
| `EventQueue.Queue.Front` | piton/tools/pli/socket/list.c:104-113 | puts a node at the front |
| `EventQueue.Queue.Search` | piton/tools/pli/socket/list.c:117-140 | unlinks the first node of a thread, null exactly if there is none |
| `EventQueue.FirstOfMeans` | piton/tools/pli/socket/list.c:117-140 | which node is taken |
| `EventQueue.Queue.FindNext` | piton/tools/pli/socket/list.c:144-173 | moves the wanted node of the first group to the front, and otherwise changes nothing for a stated reason |
| `EventQueue.RaisedMeans` | piton/tools/pli/socket/list.c:158-167 | which node was moved to the front |
| `EventQueue.StuckMeans` | piton/tools/pli/socket/list.c:160 | when the search gives up at a second waiting node |
| `EventQueue.FruitlessMeans` | piton/tools/pli/socket/list.c:154-172 | when it finds no candidate |
| `EventQueue.Queue.FrontRegVal` | piton/tools/pli/socket/list.c:311-339 | moves the first node behind the first waiting one, or to the end |
| `EventQueue.BehindMeans` | piton/tools/pli/socket/list.c:321-338 | behind which node the first is put |
| `EventQueue.Queue.ShiftRight` | piton/tools/pli/socket/list.c:343-359 | exchanges the first two nodes exactly if the first waits for at least 2 and was tried at most 300 times, which it counts |
| `EventQueue.Queue.Swap` | piton/tools/pli/socket/list.c:462-473 | exchanges the first two nodes if there are two |
| `CpxLink.Cpx.GetReq` | piton/tools/pli/iop/cpx.cc:309-314 | the packet is requested and its data are due at the next call |
| `CpxLink.Cpx.DecWait` | piton/tools/pli/iop/cpx.cc:318-322 | both delays count down by one and stay at zero |
| `CpxLink.Iob.GrantCheck` | piton/tools/pli/iop/iob.cc:259-269 | each granted core with a request outstanding gets one back |
| `CpxLink.Iob.HandleCpx` | piton/tools/pli/iop/iob.cc:402-413 | the first packet's data are valid exactly if it was requested one call before; otherwise it comes one call closer to leaving unless its core has two requests outstanding |
| `CpxLink.Iob.DriveCpx` | piton/tools/pli/iop/iob.cc:343-384 | drives the packet that is due and clears the wires one call later |
| `CpxLink.Iob.DriveReq` | piton/tools/pli/iop/iob.cc:390-398 | drives the request and clears it one call later |
| `CpxLink.Iob.Call` | piton/tools/pli/iop/iob.cc:420-428 | one call: data exactly if due, packets conserved in order, credits moved by the grants and the request, and the remaining delay falls by exactly one while no core is busy |
| `CpxLink.Iob.Run` | piton/tools/pli/iop/iob_main.cc:166-171 | over any run, data follow their request by exactly one call, no packet is lost or overtaken, and no core is ever asked more than twice more often than it grants |
| `CpxLink.NeverThree` | piton/tools/pli/iop/iob.cc:259-269 | in any window of a run, the calls that showed a request to a core are at most two more than those before which it granted, counted on the wires alone |
| `CpxLink.Iob.Drain` | piton/tools/pli/iop/iob.cc:343-428 | nothing waits for ever: once every core grants, all pending packets have left, in order, after eight calls each |
| `CpxLink.ProtocolAt` | piton/tools/pli/iop/iob.cc:343-413 | at every call of a trace: data appear exactly if the call before asked, for the core that was asked |
| `Sampler.Percent.Call` | piton/tools/pli/mem/mem.c:534-564 | the random number decides while both sides of the quota have room; a hundredth call meets the quota exactly |
| `Sampler.QuotaListed` | piton/tools/pli/iop/l2warm.cc:854 | how many of a hundred calls act for every percentage; at zero the two copies differ |
| `Sampler.Percent.Run` | piton/tools/pli/iop/l2warm.cc:851-880 | of every hundred calls exactly the quota act, whatever numbers are drawn, for every percentage |

## Findings

Where the code does not do what it is for, the model follows the code; the exact condition is proved.

- The AVL trees are not balanced in general. `balance_left` (`iop/avl.cc:102-121`, `mem/utility.h:219-238`)
  has its second and third case exchanged, so an insertion keeps balance and cached heights if and only if
  it never reaches it (`AvlSpec.InsertAvlIff`, for runs `AvlSpec.AlwaysAvlIff`). Three decreasing keys break
  the heights (`AvlSpec.DecreasingKeysBreak`), and a fourth restores them (`AvlSpec.FourthKeyRestores`). Order
  and answers are right all the same (`AvlSpec.BuildCorrect`), and no missing node is dereferenced
  (`AvlSpec.LeftCallSafe`).
- `store_op` takes the row key for address bits and keeps them in a 32-bit integer (`mem/mem.c:308`, `370-408`).
  For an unstacked memory of one rank two copies of the sign take the place of bits 38 and 39 of the address in
  the parity; with rank or stack bits, which are taken out of the key, the bank hash is undone with groups of
  bits that are one or two off. `StoreParity.Wrong` is the exact condition in each mode
  (`StoreParity.StoreBothWays`), and every mode has an address that meets it (`StoreParity.UnluckyIsWrong`).
- A wrong address together with a nibble off by 0xf can pass for a single correctable nibble: exactly for twelve
  of the 36 nibbles (`WrongAddress.MismatchAndWrongNibble`).
- Unless the memory is empty at the start, the remembered line numbers start at 0 with no line behind them
  (`iop/iob_main.cc:125`). A thread that reads line 0 before it has found any line dereferences a null pointer
  (`MemoryPort.FirstReadOfLineZero`); `MemoryPort.Port.Replay` states every run with this outcome.
- With `uncorrect_err`, an error meant to be uncorrectable is undone when the two rolls pick the same bit
  (`CacheLine.InjectionIsUncorrectable`).
- `get_data` unpacks 160 bits into an array of 156 (`iop/l2warm.cc:1234-1245`, `CacheArray.Overrun`). The four
  extra bits are zero and are not read, but they are written behind the array.
- A line is read back unrotated only if writing began at sub-bank 0 (`CacheArray.UnrotatedIffZero`); both
  callers make sure of it.
- DRAM places collide beyond the ranges of `DramMap.RangeIsExact`. With the rank and stack bits above the row
  they collide inside the range when the low digit of `dram_type` is 5, 6 or 7, or 4 for stacked memory
  (`DramMap.HighCollision`), and for no other digit up to 8 (`DramMap.HighPlaceInjective`).
- The two copies of `percent` differ at a percentage of zero: the one in `mem.c` never acts, the one in
  `l2warm.cc` always does (`Sampler.Quota`).

## Left out

- BTree.TreeNode.InsertAtom: does not set the parent pointers of nodes, which only deletion reads.
- `b_update`, `b_delete` and `b_rmFind` of the B-tree.
- Removal from the AVL tree (`iop/avl.cc:199-250`).
- Fixed-size C arrays inside nodes are sequences of fixed length that the methods reassign; memory from `malloc` that is read before it is written has arbitrary values only where the source reads it.
- The linked lists of `SendBuffer`, `CpxLink` and `StepReader` are sequences of objects or lines; `EventQueue` models pointers and links.
- Buffer sizes of the socket reader (lines of at most 1023 bytes, 32768 bytes of unread text) are not modelled in `StepReader`, nor are lines that report an error and end the simulation, nor the register heuristics that a STEP line triggers (`what_trigger`).
- StepReader.Reader.Receive: requires the thread numbers in STEP lines to be below 32, as the arrays of the source do.
- StoreParity.StoreParityAgrees: speaks of four channels and the old position of rank and stack bits.
- StoreParity.StoreBothWays: the same.
- StoreParity.StoreChecks: the two-channel variants of the hash are not modelled.
- DramMap.Cal4Channel: requires a low digit of at most 8 where the source shifts by 8 minus that digit; `cal_2channel` would repeat the same pattern with other bit positions.
- StepReader.Reader.OneStep: the thread number of a STEP line is its decimal digits. The source reads it with `atoi`, so a sign counts there, and for a line without a number it reads before the buffer; the model gives thread 0 in both cases.
- AvlSpec.AlwaysAvlIff: is about every moment of a run; which runs leave a balanced tree at the end only, and when the shape alone is balanced, is not stated.
- CacheArray.Overrun: the memory behind the 156-element array is not modelled, the model's buffer holds 160.
- EccRows.RowsListed: the terms of each exclusive or are listed in ascending order of their bits.
- CpxLink.Iob.Run: starts from an empty list with no requests outstanding, as after `manual_init`; which packets arrive, from the cores, the devices or events, is an input.
- Used and allocated bits of the cache (`updated_ua`), which are packed like the valid and dirty ones, tags and the tag path of error injection.
- Files, plusargs, logging, the Verilog interface itself, the JBUS and device models, PCX decoding.
