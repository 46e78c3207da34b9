# Verified cores of the benchmark suite

The benchmark suite times programs that contain self-contained algorithms. This project models
those algorithms in Dafny and proves what they are for: what every step keeps, what a whole run
delivers, and which inverse or reference definition the result agrees with.

| part | files |
|---|---|
| bzip2 and deflate decoding (`own/pyflate-fast.py`) | `Bwt`, `Bits`, `BitReaders`, `Huffman`, `HuffmanCodes`, `Lz77` |
| Go board (`own/go.py`) | `GoRules`, `GoGroups`, `GoEmptySet`, `GoZobrist`, `GoTally`, `Go` |
| Hexiom solver (`own/hexiom2.py`) | `HexiomRules`, `HexGrid`, `Hexiom` |
| strongly connected components, depth-first order (`own/bm_mdp.py`) | `Tarjan`, `TopoSort` |
| Schulze voting (`own/schulze.py`) | `Schulze` |
| B-tree and skip list (`multithread/btree`, `multithread/skiplist`) | `BTreeNodes`, `BTreeHeap`, `BTreeSteps`, `BTreeSearch`, `BTreeSet`, `SkipLists` |
| Richards scheduler (`multithread/multithread-richards.py`) | `Richards` |
| AES and CBC (`own/pyaes.py`) | `AesField`, `AesTables`, `AesRounds`, `AesCipher`, `AesWords`, `AesExamples`, `Cbc` |
| quicksort with futures, queue and future (`multithread/quick_sort`, `multithread/common`) | `QuickSort`, `QuickSortFutures`, `Locks`, `TLQueue`, `Futures` |
| time zones (`lib/pytz/tzinfo.py`) | `TimeZones` |
| fannkuch (`own/fannkuch.py`) | `Fannkuch` |
| sorting, permutations and optional results, used by several of them | `Sorting`, `Options` |

`dafny verify dfyconfig.toml` checks everything.

How the source's objects appear: an object whose methods update it is a class (bit readers, Huffman
tables, the Go board with its index and its hash, a candidate table, the scheduler, a cipher, a
chaining mode, the B-tree and the skip list with their nodes). Where the source has an array of small
objects that refer to each other, such as the squares of a Go board or the packets of the scheduler,
each attribute is a sequence indexed by the object's number and a reference is a number; the
sequences are updated attribute by attribute as the source does. An exception is an `Option`, a
result datatype or a Boolean. Random choices are arbitrary values.

Three results are worth singling out.

* The comment at `own/pyflate-fast.py:269-285` wonders why the loop that follows the transform until it
  is back at its start cut off repeated strings. `Bwt.UntilBackIsCompleteIff` answers it: that loop
  yields one period of the block, so it is right exactly when the block is not a repetition of a
  shorter string. There is no off-by-one error.
* `own/go.py` skips its repetition test for a square that was never used and has an empty neighbour.
  `Go.Board.UsefulIsSafe` shows that nothing is lost, without assuming that the hash is injective.
* `own/fannkuch.py` does not flip permutations whose first or last number is in place.
  `Fannkuch.MaxFlips` shows that the maximum it returns is still the maximum over all permutations.

## Model

| member | source | states |
|---|---|---|
| Bwt.BwtTransform | own/pyflate-fast.py:250-262 | for every byte string the counting loop fills the pointers with the stable sort of the positions by byte |
| Bwt.SlotsGiveStableSort | own/pyflate-fast.py:257-262 | giving each position the slot after all smaller and all earlier equal bytes is a stable sort |
| Bwt.PrependedIsSorted | own/pyflate-fast.py:250-262 | moving the last byte of each sorted rotation to the front, in stable order of that byte, keeps the rows sorted |
| Bwt.RowStep | own/pyflate-fast.py:287-289 | row T[j] of the sorted rotations is row j turned by one place, equal rows included |
| Bwt.FollowRotates | own/pyflate-fast.py:287-289 | k steps from a row lead to that row turned k times |
| Bwt.FollowReads | own/pyflate-fast.py:287-289 | the byte read in step k is byte k of the row the walk began at |
| Bwt.BwtReverse | own/pyflate-fast.py:264-291 | for every string, repetitions included, the last column of its sorted rotations and the row of the string give the string back; a pointer outside the block fails |
| Bwt.RoundTrip | own/pyflate-fast.py:264-291 | transforming any string and reversing the result gives the string |
| Bwt.FollowReturns | own/pyflate-fast.py:269-285 | the walk is back at its start after d steps exactly when turning the string by d leaves it unchanged |
| Bwt.BwtReverseUntilBack | own/pyflate-fast.py:276-280 | the loop quoted in the comment ends, delivers one period of the block, and so the block itself exactly when no proper rotation leaves it unchanged |
| Bwt.UntilBackReadsOnePeriod | own/pyflate-fast.py:269-280 | that loop yields the shortest string that the block repeats |
| Bwt.UntilBackIsCompleteIff | own/pyflate-fast.py:269-285 | that loop returns the whole block exactly when no rotation but the full one leaves the string unchanged |
| Bits.ReverseBits | own/pyflate-fast.py:126-135 | the two-ended loop mirrors the low n bits of any number and drops the others |
| Bits.ReadingIsUnique | own/pyflate-fast.py:63-96 | a bit string stands for at most one number in either bit order |
| BitReaders.Bitfield.More | own/pyflate-fast.py:64-67 | one more byte changes nothing about the bits still to be read, and fails at the end of input only |
| BitReaders.Bitfield.NeedBits | own/pyflate-fast.py:38-40 | buffers enough bits whenever the stream has them |
| BitReaders.Bitfield.SnoopBits | own/pyflate-fast.py:68-71 | the next n bits of the stream, low bit first, which stay in the stream |
| BitReaders.Bitfield.ReadBits | own/pyflate-fast.py:72-78 | the next n bits, low bit first, and exactly these leave the stream |
| BitReaders.RBitfield.More | own/pyflate-fast.py:81-85 | as for Bitfield, with bytes entering below |
| BitReaders.RBitfield.NeedBits | own/pyflate-fast.py:38-40 | as for Bitfield |
| BitReaders.RBitfield.SnoopBits | own/pyflate-fast.py:86-89 | the next n bits, high bit first, which stay in the stream |
| BitReaders.RBitfield.ReadBits | own/pyflate-fast.py:90-96 | the next n bits, high bit first, and exactly these leave the stream; the mask clears them in the buffer |
| Huffman.SymbolIsKraftSum | own/pyflate-fast.py:162-170 | (symbol + 1) / 2^length is the Kraft sum up to the entry, for every list of lengths |
| Huffman.CodesFitIffKraft | own/pyflate-fast.py:162-170 | every symbol fits into its length exactly when the Kraft sum is at most one |
| Huffman.PrefixFree | own/pyflate-fast.py:162-170 | with Kraft sum at most one no code is a prefix of another |
| Huffman.SymbolIsStandard | own/pyflate-fast.py:162-170 | the numbering is that of section 3.2.2 of RFC 1951 |
| Huffman.FindWritten | own/pyflate-fast.py:198-204 | looking a written code up in table order finds its own entry, whatever follows it in the stream |
| Huffman.NextWritten | own/pyflate-fast.py:195-205 | a stream of written codes splits into the first one and the rest |
| Huffman.ExpandSpans | own/pyflate-fast.py:150-158 | the run-length list is expanded to one length per code, unused codes and the end marker left out |
| Huffman.EnumerateSpans | own/pyflate-fast.py:217-220 | listing lengths one by one as runs expands to the codes with a length |
| Huffman.NextSymbol | own/pyflate-fast.py:163-168 | the shift by the change of length continues the numbering from any entry |
| Huffman.HuffmanTable.constructor | own/pyflate-fast.py:149-160 | the table holds the expanded codes in order of length, then code |
| Huffman.HuffmanTable.Ordered | own/pyflate-fast.py:216-220 | the same for one length per code |
| Huffman.HuffmanTable.PopulateHuffmanSymbols | own/pyflate-fast.py:162-170 | every entry gets its canonical symbol and its mirrored form; codes and lengths stay |
| Huffman.HuffmanTable.FindNextSymbolReversed | own/pyflate-fast.py:195-205 | returns the code of the first matching entry of a low-bit-first stream and consumes exactly its bits, or nothing |
| Huffman.HuffmanTable.FindNextSymbol | own/pyflate-fast.py:195-205 | the same for a high-bit-first stream |
| Huffman.HuffmanTable.ReadBackReversed | own/pyflate-fast.py:195-205 | any sequence of codes that was written comes back, low bit first, and the bits after it are left |
| Huffman.HuffmanTable.ReadBack | own/pyflate-fast.py:195-205 | any sequence of codes that was written comes back, high bit first |
| HuffmanCodes.UnitsReordered | own/pyflate-fast.py:150-160 | the Kraft sum of a list of lengths does not depend on its order |
| HuffmanCodes.KraftOfCodes | own/pyflate-fast.py:150-170 | the sorted table meets Kraft's inequality exactly when the codes do in the order in which they are given |
| HuffmanCodes.ReadBackReversed | own/pyflate-fast.py:195-220 | for every list of lengths with Kraft sum at most one, in any order, what is written with its canonical code comes back, low bit first, and the bits after it are left |
| HuffmanCodes.ReadBack | own/pyflate-fast.py:195-220 | the same, high bit first |
| Lz77.CopyMatch | own/pyflate-fast.py:617-625 | the doubling copy equals copying byte by byte at the distance, overlaps included; the length is right exactly when the distance lies within the output |
| Lz77.CopyTwice | own/pyflate-fast.py:619-621 | two copies at one distance are one longer copy |
| GoRules.ConnectedStaysIn | own/go.py:251-259 | a set closed under stepping to a neighbour of the same colour contains the whole group |
| GoRules.TakeGroup | own/go.py:58-60 | taking one ledgeless group of the opponent off leaves a position that is on the way to the finished move |
| GoRules.TakenBreathes | own/go.py:58-80 | captures give no ledge to other groups of the captured colour |
| GoRules.TakenAll | own/go.py:46-61 | when no ledgeless group of the opponent is left next to the stone, the position is that of the rules |
| GoRules.AllBreatheIff | own/go.py:216-219 | a move keeps a ledge for every group exactly when the new stone's group has one |
| GoGroups.FollowReference | own/go.py:82-88 | a step along a reference stays in the group and leads to a later stone |
| GoGroups.ForestMerged | own/go.py:52-55 | making a root refer to the newest stone keeps the references a forest |
| GoGroups.RootIffConnected | own/go.py:266-280 | two stones have the same root exactly when a path of their colour joins them |
| GoGroups.CountsMerged | own/go.py:53-55 | adding the root's count to the new root counts the pairs of both groups |
| GoGroups.CountIsZero | own/go.py:58-60 | a count of zero means that the group has no ledge and no neighbour of the new stone still to be looked at |
| GoGroups.CountTellsLedge | own/go.py:59 | the count at a root is zero exactly when its group has no ledge |
| GoGroups.ExploredAll | own/go.py:73-77 | a removal that follows all neighbours with the same root takes exactly the group |
| GoGroups.CountedWithout | own/go.py:73-80 | the pairs that a removal adds make the counts right for the position without the group |
| GoEmptySet.EmptySet.constructor | own/go.py:94-97 | all points are listed and the index finds each |
| GoEmptySet.EmptySet.Add | own/go.py:111-113 | adds one point; no point is listed twice |
| GoEmptySet.EmptySet.Remove | own/go.py:115-117 | filling the gap with the last point removes just the one point, the last one included |
| GoEmptySet.EmptySet.Swap | own/go.py:106-108 | the two exchanges of random_choice keep the set and the index |
| GoZobrist.HashRecoloured | own/go.py:133-135 | the hash of a position follows a change of one square by two strings |
| GoZobrist.ZobristHash.constructor | own/go.py:124-131 | the first hash is that of the empty board, and it is remembered |
| GoZobrist.ZobristHash.Update | own/go.py:133-135 | the hash stays that of the position |
| GoTally.FoeBreathesIff | own/go.py:207-213 | after the move a neighbouring group of the opponent has a ledge exactly when it has one besides the square |
| GoTally.SensibleBreathes | own/go.py:216-219 | the rule at the end of useful leaves the new stone's group a ledge |
| GoTally.SensibleIff | own/go.py:216-219 | the rule holds exactly when the new stone's group has a ledge after the move and some neighbour of the square is not a friend that keeps another ledge |
| GoTally.TallyLess | own/go.py:207-212 | lowering a temporary count keeps the weak groups those without a remaining ledge |
| GoTally.TallyMeans | own/go.py:194-219 | the four numbers are zero exactly when there is no friendly or opposing group that would, or would not, keep a ledge |
| GoTally.TryIsTaken | own/go.py:211-213 | a trial removal changes the hash to that of the position without the captured group |
| GoTally.ShownIsPlayed | own/go.py:194-214 | after the trial the hash is that of the position that the move really leads to |
| Go.GridIsGraph | own/go.py:29-35 | neighbours on the board are mutual, distinct and never the square itself |
| Go.Board.constructor | own/go.py:143-161 | a new board meets the whole invariant, with black to move |
| Go.Board.Reset | own/go.py:150-161 | an empty board in new helper objects, whose only remembered position is the empty one |
| Go.Board.Find | own/go.py:82-88 | ends at the root of the stone's group; compressing the path keeps the groups, and without update nothing changes |
| Go.Board.Remove | own/go.py:63-80 | the recursion closes under neighbours of the same root, counts a ledge for every other stone next to a removed one, and keeps the hash and the index of empty points right |
| Go.Board.Capture | own/go.py:59-60 | a group whose count fell to zero is removed completely and all other counts are right for the new position |
| Go.Board.LookAround | own/go.py:46-61 | the loop over the neighbours ends in the position of the rules, with groups and counts right |
| Go.Board.Place | own/go.py:37-61 | a stone on any empty square leads to the position of the rules, through merges, path compression and captures |
| Go.Board.Move | own/go.py:163-173 | every move on an empty square, and every pass, keeps the invariant; the position is remembered; two passes finish the game |
| Go.Board.CheckHolds | own/go.py:246-281 | after any sequence of moves a root tells a group apart and its count is the number of pairs of a member and an empty neighbour |
| Go.Board.UsefulFast | own/go.py:178-183 | true exactly for a never used square with an empty neighbour |
| Go.Board.TryRemove | own/go.py:63-80 | without update only marks and the hash change, and the marks cover the group |
| Go.Board.TryAll | own/go.py:194-213 | the loop tallies every neighbouring group once, and shows the captures in the hash |
| Go.Board.Useful | own/go.py:185-219 | true exactly when the square is fresh with an empty neighbour, or the resulting position's hash is new and the move is sensible; the board is unchanged |
| Go.Board.UsefulIsSafe | own/go.py:163-219 | an accepted move leads to a position never seen before and leaves no group without a ledge |
| Go.Board.UsefulIff | own/go.py:178-219 | besides fresh squares next to an empty one, exactly those moves are accepted whose position has a new hash, whose stone's group has a ledge there, and which do not only fill a square between friends that keep one |
| Go.Board.RandomChoice | own/go.py:99-109 | whatever indices are drawn, the result is an accepted move, and a pass only if no square is accepted |
| Go.Board.UsefulMoves | own/go.py:221-222 | lists exactly the accepted moves |
| Go.Board.RandomPlayout | own/go.py:342-347 | in a random game every stone makes a new position, and every group always has a ledge |
| HexiomRules.NarrowsOne | own/hexiom2.py:58-63 | shortening a list by values that no solution uses keeps all solutions and lowers the number of candidates |
| HexiomRules.OutOfBounds | own/hexiom2.py:229-245 | a number outside the bounds of its neighbours is in no solution |
| HexiomRules.UsesLow | own/hexiom2.py:252-256 | when the decided cells use up the tiles of a value no other cell has it |
| HexiomRules.UsesHigh | own/hexiom2.py:257-266 | when just as many cells as tiles can have a value all of them do |
| HexiomRules.AllFound | own/hexiom2.py:287-291 | around a cell with all its tiles the undecided neighbours are empty |
| HexiomRules.AllNeeded | own/hexiom2.py:294-297 | around a cell that needs all of them none is |
| HexGrid.PlaceNodes | own/hexiom2.py:169-189 | the two double loops list every cell of the hexagon once, as many as the formula says |
| HexGrid.DirsLeadBeside | own/hexiom2.py:21-26 | the six directions lead to exactly the cells at distance one |
| HexGrid.LinkNode | own/hexiom2.py:191-198 | a cell's links are the cells at distance one, each once |
| HexGrid.BuildHex | own/hexiom2.py:168-201 | at most six links per cell, mutual, never to itself |
| Hexiom.Done.Exclude | own/hexiom2.py:58-63 | removing a value that no solution has in the cell keeps all solutions |
| Hexiom.Done.Decide | own/hexiom2.py:52-53 | setting a cell to the value that all solutions have there keeps them |
| Hexiom.Bounds | own/hexiom2.py:231-240 | the least and the greatest number of filled neighbours |
| Hexiom.BoundCells | own/hexiom2.py:226-245 | the first part of a pass keeps all solutions; when it changes nothing, every candidate number lies within the bounds of its neighbours |
| Hexiom.TilesLeft | own/hexiom2.py:247-250 | the tiles not on decided cells |
| Hexiom.FixTiles | own/hexiom2.py:247-266 | the second part keeps all solutions, although the tiles left are counted only once; when it changes nothing, no value is used up that some cell still lists, and none is forced |
| Hexiom.ForceAround | own/hexiom2.py:271-297 | the third part keeps all solutions; when it changes nothing, no decided cell settles its neighbours |
| Hexiom.ConstraintPass | own/hexiom2.py:221-299 | a pass keeps the set of solutions; when it returns True there are fewer candidates, otherwise nothing changed and no rule is left to apply |
| Hexiom.CheckSolved | own/hexiom2.py:355-392 | IMPOSSIBLE only without solutions, SOLVED only with the solution shown, OPEN only if no list is empty and some cell is undecided |
| Hexiom.NextCellFirst | own/hexiom2.py:111-115 | the first undecided cell, -1 if there is none |
| Hexiom.NextCellMinChoice | own/hexiom2.py:82-89 | the first cell of those with the shortest list of two candidates or more, -1 if there is none |
| Hexiom.NextCellMaxChoice | own/hexiom2.py:91-98 | the first cell of those with the longest list |
| Hexiom.NextCellHighestValue | own/hexiom2.py:100-109 | the first of the undecided cells with the highest candidate; an exception exactly if some cell has no candidate |
| Hexiom.NextCellMaxNeighbors | own/hexiom2.py:117-128 | the first of the undecided cells with the most filled neighbours |
| Hexiom.NextCellMinNeighbors | own/hexiom2.py:130-141 | the first of the undecided cells with the fewest filled neighbours |
| Hexiom.FindMoves | own/hexiom2.py:304-317 | the moves are the candidates of the chosen cell: as listed, or the values from the last to the first and EMPTY at the end; an exception exactly if the highest-value strategy meets a cell without candidates |
| Hexiom.Propagate | own/hexiom2.py:397-413 | repeated passes end with a board at rest and keep the solutions |
| Hexiom.SolveStep | own/hexiom2.py:394-421 | for every strategy and order the search ends, never with OPEN, and answers SOLVED exactly if a solution exists; without one the highest-value strategy can raise an exception at the first step |
| Hexiom.TryMove | own/hexiom2.py:408-420 | one move on a clone: the board that is cloned is unchanged and the answer is right for that value |
| Hexiom.CheckValid | own/hexiom2.py:423-436 | negative counts are cleared, and the tiles must fill the board |
| Hexiom.Solve | own/hexiom2.py:438-440 | the puzzle is solved exactly if it has a solution; an exception comes from a wrong number of tiles, or from the highest-value strategy on a puzzle without solution |
| HexiomRules.FilledBounds | own/hexiom2.py:229-240 | any way of filling the undecided neighbours stays within the bounds |
| Tarjan.Skip | own/bm_mdp.py:23-24 | dropping a node that was reached in the meantime keeps the invariant |
| Tarjan.DiscoverKeepsInv | own/bm_mdp.py:23-29 | discovering a node keeps the invariant |
| Tarjan.LowLink | own/bm_mdp.py:31-37 | the loop over the children finds the least index among the listed links, and its assertion holds |
| Tarjan.FinishInside | own/bm_mdp.py:30-37 | finishing a node that leads below itself keeps the invariant |
| Tarjan.SegmentIsComponent | own/bm_mdp.py:39-45 | when index and lowlink agree, the top of `subtree` down to the node is one component and no edge leaves it to an unfinished node |
| Tarjan.FinishRoot | own/bm_mdp.py:39-45 | emitting that component keeps the invariant |
| Tarjan.PopComponent | own/bm_mdp.py:40-42 | the pops end at the node and yield just that part |
| Tarjan.Finished | own/bm_mdp.py:46 | with an empty stack the invariant says what is promised of the result |
| Tarjan.TarjanSCC | own/bm_mdp.py:5-46 | on every finite graph the search ends with exactly the strongly connected components of the part reached from the roots, each once, every edge between two of them leading to the one emitted earlier |
| TopoSort.TopoSort | own/bm_mdp.py:48-70 | lists every node that the roots reach exactly once; it is a topological order exactly when that part has no cycle |
| TopoSort.TopologicalIffAcyclic | own/bm_mdp.py:48-70 | an order by finishing times is topological exactly without cycles |
| Schulze.CountBeforeIsPreference | own/schulze.py:43-48 | the inner loop's increments count the ballots that rank one candidate above another |
| Schulze.FillPreferences | own/schulze.py:42-48 | d[a][b] is the number of ballots with a above b |
| Schulze.PathBelowWidest | own/schulze.py:60-66 | no path through the vertices allowed so far is stronger than the entry |
| Schulze.WidestIsPath | own/schulze.py:60-66 | some path attains the entry |
| Schulze.ThroughVertex | own/schulze.py:60-66 | one round of the triple loop, overwriting entries that it still reads, admits one more inner vertex |
| Schulze.WidestPaths | own/schulze.py:50-66 | the loops leave in each entry the greatest strength of a path, a link counting its votes if it is won and nothing otherwise |
| Schulze.WidestIsGreatest | own/schulze.py:60-66 | after all rounds an entry is the greatest strength over all paths |
| Schulze.WidestTriangle | own/schulze.py:60-66 | going through a third candidate is never stronger |
| Schulze.BeatsIsTransitive | own/schulze.py:68-82 | having the stronger widest path is transitive |
| Schulze.UnbeatenExists | own/schulze.py:74-82 | every list of candidates has one that none of the others beats, so the ranking loop makes progress |
| Schulze.Rank | own/schulze.py:71-82 | the loop ends although it removes from the list it iterates over, every candidate is ranked once, and whoever beats another comes first |
| Schulze.BeatsIff | own/schulze.py:52-66 | one candidate beats another exactly when, for some number of votes, a path of won links with at least that many votes leads from the one to the other and none leads back |
| Schulze.MajorityIsAhead | own/schulze.py:52-82 | a candidate who wins against every other is ahead of all of them |
| Schulze.UnanimousIsAhead | own/schulze.py:52-82 | a candidate whom every voter ranks above another is ahead of the other |
| Schulze.Schulze | own/schulze.py:29-82 | from ballots to ranking: whoever is ahead in the votes comes first; a winner against every other is the first of all; whom every voter prefers comes earlier |
| BTreeNodes.ItemsJoin | multithread/btree/btree.py:118-127 | joining two nodes around an item concatenates what they yield |
| BTreeNodes.ItemsExchange | multithread/btree/btree.py:28-38 | moving items between two neighbours through the parent keeps the parent's items in order |
| BTreeNodes.ItemsConsolidated | multithread/btree/btree.py:94-108 | consolidating two children with the item between them keeps the items |
| BTreeNodes.ItemsParted | multithread/btree/btree.py:68-70 | putting a split child and its median into the parent keeps the items |
| BTreeNodes.ItemsPlug | multithread/btree/btree.py:173-190 | the items of the tree are those left of the path, of the node and right of the path |
| BTreeNodes.PlugIsGood | multithread/btree/btree.py:173-190 | a node of the right shape at the end of a good path makes a good tree |
| BTreeHeap.OneLevelUp | multithread/btree/btree.py:40-72 | the node objects below a parent and along the path hold what they should, and are all different, exactly when the same is true seen from one level up |
| BTreeHeap.PlugPlaced | multithread/btree/btree.py:173-190 | and so for the whole tree, seen from the root |
| BTreeSteps.LateralLeft | multithread/btree/btree.py:28-33 | in the node objects, the left neighbour gains the parent's item, the parent the node's first: same items in order, same depth, same objects |
| BTreeSteps.LateralRight | multithread/btree/btree.py:34-38 | the mirror image, towards the right neighbour |
| BTreeSteps.Split | multithread/btree/btree.py:118-127 | the node and a new sibling have between order/2 and order items each, and with the median between them the items of the node; no object is shared |
| BTreeSteps.AddSibling | multithread/btree/btree.py:68-70 | the parent object gets the median and the sibling at the place of the split child |
| BTreeSteps.Consolidate | multithread/btree/btree.py:94-108 | the left neighbour takes over the item between them and everything of the right one, which leaves the tree |
| BTreeSet.BTree.Shrink | multithread/btree/btree.py:40-72 | an overfull node anywhere in the tree is repaired in place, up to a new root, with the same items |
| BTreeSet.BTree.SplitUp | multithread/btree/btree.py:61-72 | the part after the neighbours: the median goes up, and so on until a node has room |
| BTreeSet.BTree.GrowRoot | multithread/btree/btree.py:63-70 | a root that was split gets a new root above both halves |
| BTreeSet.BTree.Grow | multithread/btree/btree.py:74-116 | a node one item short is repaired in place by borrowing or consolidating, with the same items and no new object |
| BTreeSet.BTree.ConsolidateAt | multithread/btree/btree.py:94-116 | after consolidation a parent that became too small is repaired in turn, and an empty root is replaced |
| BTreeSearch.BisectLeft | multithread/btree/btree.py:178 | the first position whose item is not smaller |
| BTreeSearch.ChildBounds | multithread/btree/btree.py:178-183 | everything left of the chosen child is smaller than the item, everything right of it larger |
| BTreeSearch.SearchItems | multithread/btree/btree.py:192-194 | where the search ends, the item is at the position found exactly when the tree has it |
| BTreeSearch.Inserted | multithread/btree/btree.py:129-130 | an item put at its position in the leaf keeps the whole tree increasing and adds just that item |
| BTreeSearch.TakenOut | multithread/btree/btree.py:134-164 | without one item the rest is still increasing and has just that item less |
| BTreeSet.BTree.PathTo | multithread/btree/btree.py:173-190 | the search ends at the item exactly when the tree has it, else at the leaf where it belongs, and the ancestors listed are the way there |
| BTreeSet.Leftmost | multithread/btree/btree.py:140-144 | the chain of first children leads to the leaf with the subtree's first item |
| BTreeSet.Rightmost | multithread/btree/btree.py:152-157 | the chain of last children leads to the leaf with the subtree's last item |
| BTreeSet.BTree.RemoveFromLeaf | multithread/btree/btree.py:161-164 | one item leaves the tree and all occupancy bounds hold again |
| BTreeSet.BTree.PromoteNext | multithread/btree/btree.py:146-149 | the item of a branch is overwritten by its successor, which leaves its leaf |
| BTreeSet.BTree.PromotePrevious | multithread/btree/btree.py:158-160 | the item of a branch is overwritten by its predecessor, which leaves its leaf |
| BTreeSet.BTree.RemoveFromBranch | multithread/btree/btree.py:137-160 | the item of a branch goes, replaced by its successor, or by its predecessor when that leaf can spare none |
| BTreeSet.BTree.InsertAt | multithread/btree/btree.py:129-132 | inserting at the leaf found keeps order, shape and separation, and adds the item |
| BTreeSet.BTree.RemoveAt | multithread/btree/btree.py:134-164 | removing at the node found keeps them, and takes out the item |
| BTreeSet.BTree.constructor | multithread/btree/btree.py:169-171 | the empty set |
| BTreeSet.BTree.Contains | multithread/btree/btree.py:221-222 | agrees with the set of items |
| BTreeSet.BTree.Insert | multithread/btree/btree.py:196-209 | for every order from 2 on, adds the item to the set, says whether it was new, and keeps order, equal depth, occupancy and the separation of the node objects |
| BTreeSet.BTree.Remove | multithread/btree/btree.py:211-217 | takes the item out of the set, if it is there, and keeps all of these; no node object is new |
| SkipLists.SkipList.constructor | multithread/skiplist/skiplist.py:19-22 | the empty set |
| SkipLists.SkipList.UpdateList | multithread/skiplist/skiplist.py:45-52 | on every level in use, the last node with a smaller element |
| SkipLists.SkipList.Find | multithread/skiplist/skiplist.py:27-34 | the node with the element exactly if it is in the set |
| SkipLists.SkipList.Contains | multithread/skiplist/skiplist.py:36-37 | agrees with the set |
| SkipLists.SkipList.LinkIn | multithread/skiplist/skiplist.py:66-67 | the two assignments put the node into one level and leave the links of other heights alone |
| SkipLists.SkipList.UnlinkFrom | multithread/skiplist/skiplist.py:77 | one assignment takes the node out of one level |
| SkipLists.SkipList.UnlinkAll | multithread/skiplist/skiplist.py:76-79 | the node leaves all its levels, and `maxHeight` stays above every level with nodes |
| SkipLists.SkipList.Insert | multithread/skiplist/skiplist.py:54-69 | for any height, adds the element; a duplicate changes no node, although `maxHeight` and the head may grow |
| SkipLists.SkipList.Remove | multithread/skiplist/skiplist.py:71-81 | takes the element out and keeps every level linked, increasing and nested |
| SkipLists.SublistOfBelow | multithread/skiplist/skiplist.py:27-81 | every level is a sublist of the level below |
| Richards.Scheduler.constructor | multithread/multithread-richards.py:387-413 | the task set at the start meets the invariant |
| Richards.Scheduler.Take | multithread/multithread-richards.py:194-195 | taking the head of a list follows a link that is in the list, never a stale one |
| Richards.Scheduler.AppendTo | multithread/multithread-richards.py:40-51 | the packet is the last of the list, and its own stale link is cut |
| Richards.Scheduler.TakeInput | multithread/multithread-richards.py:192-201 | the task's flag keeps telling whether it has input |
| Richards.Scheduler.WaitTask | multithread/multithread-richards.py:206-208 | a device waits only without a pending packet |
| Richards.Scheduler.Hold | multithread/multithread-richards.py:211-214 | going on with the next task keeps all tasks of higher priority blocked |
| Richards.Scheduler.Release | multithread/multithread-richards.py:217-223 | returning the more urgent of two tasks keeps all tasks above it blocked |
| Richards.Scheduler.AddPacket | multithread/multithread-richards.py:181-189 | the packet is the last of the receiver's input afterwards, and a more urgent receiver that had none is run next |
| Richards.Scheduler.Qpkt | multithread/multithread-richards.py:226-238 | the packet names a task that exists, and names its sender afterwards |
| Richards.Scheduler.KeepPending | multithread/multithread-richards.py:258-261 | a device stores a packet only when none is pending |
| Richards.Scheduler.FnDevice | multithread/multithread-richards.py:248-261 | a new packet becomes the pending one and the device holds; without a new one the pending packet goes to the task that it names, or the device waits |
| Richards.Scheduler.FnHandler | multithread/multithread-richards.py:269-292 | a packet joins the handler's work or device list; then a work packet without letters goes back to the worker, or the first work packet's next letter goes to the device in the first device packet, or the handler waits |
| Richards.Scheduler.FnIdle | multithread/multithread-richards.py:301-312 | the idle task counts down, releases the device that the shift register's lowest bit names, and holds at zero |
| Richards.Scheduler.FnWork | multithread/multithread-richards.py:324-345 | a work packet leaves for the handler that did not get the last one, as the last of its input, with no letter read and the four letters after the last one written |
| Richards.SharesAreEven | multithread/multithread-richards.py:330-335 | over any number of work packets the two handlers' shares differ by one at most |
| Richards.LettersFollow | multithread/multithread-richards.py:339-343 | the worker's counter, which starts over after 26, continues the numbering of all the letters written so far |
| Richards.OrderPassed | multithread/multithread-richards.py:281-292 | passing on the first letter of the first work packet keeps the letters in order |
| Richards.OrderSent | multithread/multithread-richards.py:330-345 | sending the next work packet keeps the letters in order |
| Richards.PassedInOrder | multithread/multithread-richards.py:269-345 | what a handler has passed on is the first part of the letters written for it |
| Richards.Scheduler.RunTask | multithread/multithread-richards.py:192-203 | run for a task that is not blocked while all of higher priority are, a turn keeps the invariant: eight packets in exactly one place each, flags that match, letters in order, idle count or remaining moves smaller |
| Richards.Scheduler.Schedule | multithread/multithread-richards.py:354-366 | scheduling ends; then every task is blocked and the idle task has counted to zero |
| Richards.Run | multithread/multithread-richards.py:383-415 | for the benchmark's task set: at the end every task is blocked, and each device has got the letters of the work packets for its handler in the order in which they were written, from the first on, none left out and none twice |
| AesField.ProductStep | own/pyaes.py:413-424 | the product in the field, defined bit by bit, can be computed from one bit and a shift |
| AesField.GaloisMultiply | own/pyaes.py:413-424 | the loop computes the product in the field of section 4.2 of FIPS 197, although its multiplicand outgrows a byte |
| AesField.MixUnmixReturns | own/pyaes.py:217-261 | unmixing a mixed column returns it, for all columns |
| AesTables.SboxInverse | own/pyaes.py:443-482 | the two tables are inverse to each other |
| AesTables.SboxIsAffineOfInverse | own/pyaes.py:443-460 | every entry is the affine image of the multiplicative inverse, section 5.1.1 of FIPS 197 |
| AesTables.RconIsPower | own/pyaes.py:489-500 | the round constants in use are the powers of x |
| AesRounds.SubBytesReturns | own/pyaes.py:178-186 | substituting back returns the block |
| AesRounds.ShiftRowsReturns | own/pyaes.py:190-213 | shifting back returns the block |
| AesRounds.MixColumnsReturns | own/pyaes.py:217-261 | mixing back returns the block |
| AesRounds.RoundsReturn | own/pyaes.py:265-300 | the rounds undone in the opposite order return the block |
| AesRounds.DecryptReturns | own/pyaes.py:265-300 | under every expanded key decryption undoes encryption |
| AesRounds.ExpandsMore | own/pyaes.py:133-163 | appending the word that the recurrence demands continues the expansion |
| AesRounds.ExpansionIsUnique | own/pyaes.py:102-165 | the key and the recurrence leave no freedom: any two expansions agree |
| AesCipher.AddRoundKey | own/pyaes.py:167-174 | the round's sixteen key bytes are added in place |
| AesCipher.SubBytesInPlace | own/pyaes.py:178-186 | in place as on values |
| AesCipher.ShiftRowsInPlace | own/pyaes.py:202-204 | the simultaneous assignments turn row r by r places |
| AesCipher.InvShiftRowsInPlace | own/pyaes.py:211-213 | and back |
| AesCipher.MixColumnsInPlace | own/pyaes.py:217-236 | in place as on values, column by column |
| AesCipher.InvMixColumnsInPlace | own/pyaes.py:240-261 | in place as on values |
| AesCipher.ExpandKey | own/pyaes.py:102-165 | for each key length the expansion has exactly 4 * length + 112 bytes, starts with the key and obeys the recurrence of section 5.2 of FIPS 197 |
| AesCipher.AES.SetKey | own/pyaes.py:85-100 | keys of 16, 24 and 32 bytes only, for length / 4 + 6 rounds; otherwise the former expansion stays |
| AesCipher.AES.EncryptBlock | own/pyaes.py:265-281 | the block becomes its encryption |
| AesCipher.AES.DecryptBlock | own/pyaes.py:283-299 | the block becomes its decryption |
| AesWords.ScrambledColumns | own/pyaes.py:178-204 | substitution and row shift, on the columns as numbers of 32 bits, for all blocks |
| AesWords.MixedColumns | own/pyaes.py:217-236 | mixing is a few operations on whole words, for all blocks |
| AesWords.NextKeyWord | own/pyaes.py:118-163 | each word of the key schedule follows by word operations, with the round constants as powers of x |
| AesExamples.StatesAre | own/pyaes.py:265-277 | the states after each round of the example in Appendix C.1 of FIPS 197 |
| AesExamples.ExampleC1 | own/pyaes.py:265-281 | under the expanded example key of Appendix C.1 the example block becomes the ciphertext given there |
| AesExamples.ExampleC1Keyed | own/pyaes.py:85-165 | every cipher object with that key makes ten rounds and this ciphertext |
| AesExamples.ExampleA2 | own/pyaes.py:115-163 | for a key of 24 bytes the words of Appendix A.2 |
| AesExamples.ExampleA3 | own/pyaes.py:148-153 | for a key of 32 bytes the words of Appendix A.3, the extra substitution included |
| Cbc.CbcReturns | own/pyaes.py:359-409 | for every key, vector and whole number of blocks decryption undoes encryption |
| Cbc.EncryptInPieces | own/pyaes.py:359-381 | encrypting in pieces, the vector carried over, is encrypting at once |
| Cbc.DecryptInPieces | own/pyaes.py:383-409 | the same for decryption |
| Cbc.CbcBlocks | own/pyaes.py:369-378 | each ciphertext block is the cipher of the plaintext block added to the ciphertext block before, section 6.2 of NIST SP 800-38A |
| Cbc.CBCMode.EncryptData | own/pyaes.py:359-381 | data of other lengths is refused, a short vector fails; otherwise the chained encryption, and the next call continues it |
| Cbc.CBCMode.DecryptData | own/pyaes.py:383-409 | the same for decryption |
| QuickSort.Partition | multithread/quick_sort/quick_sort.py:28-40 | both indices stay in the range, it is split around the pivot, and both sides are strictly smaller |
| QuickSort.SplitSorted | multithread/quick_sort/quick_sort.py:41-42 | sorting both sides sorts the range |
| QuickSort.QSort | multithread/quick_sort/quick_sort.py:25-42 | sorts a range in place and leaves the rest alone |
| QuickSort.StepKeepsInv | multithread/quick_sort/quick_sort.py:46-88 | any iteration of any pending task keeps the ranges disjoint and everything outside one range in order |
| QuickSort.StepShrinks | multithread/quick_sort/quick_sort.py:46-88 | every iteration lowers the work that is left |
| QuickSort.RunKeepsInv | multithread/quick_sort/quick_sort.py:46-88 | whatever order the tasks run in, the invariant holds and the number of steps is bounded |
| QuickSort.AnyRunSorts | multithread/quick_sort/quick_sort.py:46-88 | every interleaving goes on as long as a task is pending, ends, and has sorted the input when none is |
| QuickSortFutures.TurnKeepsBooks | multithread/quick_sort/quick_sort.py:66-88 | an iteration, which may hand either side to a new future, keeps this: every pending task belongs to a future that is listed, or will be returned by one that is not over |
| QuickSortFutures.CallKeepsLists | multithread/quick_sort/quick_sort.py:91-96 | a future that is over leaves the list, and those that it returned enter it, each once |
| QuickSortFutures.NothingListed | multithread/quick_sort/quick_sort.py:91-97 | with an empty list every future is over, no task is pending, and the sequence is a sorted permutation of the input |
| QuickSortFutures.CallFuture | multithread/quick_sort/quick_sort.py:94-95 | the call of a future returns, whatever turns the threads take meanwhile, and then none of its tasks is pending |
| QuickSortFutures.WaitForFutures | multithread/quick_sort/quick_sort.py:91-97 | for every schedule the loop ends, has called every future exactly once, and the sequence is a sorted permutation of the input |
| QuickSortFutures.SortInParallel | multithread/quick_sort/quick_sort.py:116-117 | the sort as it is started, a future for everything and then those that it returns, sorts every sequence |
| TLQueue.StepConserves | multithread/common/abstract_threading.py:67-84 | items put are items delivered and items queued |
| TLQueue.StepKeepsOrder | multithread/common/abstract_threading.py:67-84 | every delivery is the item put most recently of those still queued |
| TLQueue.StepKeepsNoLostWakeup | multithread/common/abstract_threading.py:67-84 | if a getter sleeps while there is an item, some putter has appended and not yet notified |
| TLQueue.RunKeepsInv | multithread/common/abstract_threading.py:62-84 | all three hold in every state of every interleaving |
| TLQueue.NeverStuckWithItems | multithread/common/abstract_threading.py:72-84 | while there is an item and a getter some call can go on |
| Futures.RunKeepsInv | multithread/common/abstract_threading.py:132-168 | a call is over only when the task has stored its outcome |
| Futures.CallsGiveTheOutcome | multithread/common/abstract_threading.py:159-168 | every call that returns gives the stored result or exception |
| Futures.NobodyIsLeftWaiting | multithread/common/abstract_threading.py:144-168 | when nobody can act any more the task is over and all calls have returned |
| TimeZones.IndexIs | lib/pytz/tzinfo.py:199 | the entry in force is the last one whose transition has passed, the first one before all of them |
| TimeZones.NormalizeKeeps | lib/pytz/tzinfo.py:193-256 | normalizing keeps the instant and changes nothing about a time that came from UTC |
| TimeZones.OneTransition | lib/pytz/tzinfo.py:320-327 | the two days around a reading have at most one transition |
| TimeZones.PossibleIff | lib/pytz/tzinfo.py:320-330 | the two guesses find exactly the times that come from a UTC instant |
| TimeZones.GapAround | lib/pytz/tzinfo.py:335-338 | a reading without a time lies in the gap of one transition |
| TimeZones.WindingEnds | lib/pytz/tzinfo.py:343-355 | each six-hour step comes nearer to the end of that gap, so the recursion ends |
| TimeZones.LocalizeInverts | lib/pytz/tzinfo.py:258-363 | without a hint the result is the only UTC instant with that reading; NonExistentTimeError exactly if there is none, AmbiguousTimeError exactly if there are two |
| TimeZones.LocalizeFromUtc | lib/pytz/tzinfo.py:193-201 | a time that came from UTC is found again unless its reading is ambiguous |
| TimeZones.LocalizeWithHint | lib/pytz/tzinfo.py:338-394 | with a hint there is always a result, with the reading that was given |
| TimeZones.HintDecides | lib/pytz/tzinfo.py:365-394 | of two instants the hint picks by flag if that tells them apart, otherwise by order |
| TimeZones.WindsOutside | lib/pytz/tzinfo.py:336-355 | winding ends at the first reading outside the gap in steps of six hours, which the model computes without recursion, and that reading exists |
| TimeZones.HintInGapIs | lib/pytz/tzinfo.py:336-394 | which zone a reading in a gap gets, for every zone and either hint |
| TimeZones.HintInGapIff | lib/pytz/tzinfo.py:336-394 | it is the zone after the transition for a true hint, the zone before it for a false one, exactly when that outside reading is not one which a second entry shows too and the hint prefers |
| TimeZones.HintInGap | lib/pytz/tzinfo.py:336-355 | so it always is if no offset exceeds 21 hours |
| TimeZones.HintInFarGap | lib/pytz/tzinfo.py:346-349 | an example with larger offsets and a true hint: the reading gets a third zone |
| TimeZones.HintInFarBackGap | lib/pytz/tzinfo.py:351-355 | the same with a false hint |
| Fannkuch.FlipIsReversal | own/fannkuch.py:37 | a flip is the assignment of the reversed prefix to that prefix |
| Fannkuch.FlipFixesMore | own/fannkuch.py:36-39 | a flip makes the sum of 2^(i-1) over the numbers i in place larger |
| Fannkuch.FlipsBelow | own/fannkuch.py:36-39 | so there are fewer than 2^(n-1) flips |
| Fannkuch.CountFlips | own/fannkuch.py:33-39 | the loop, whose body is that assignment, ends and counts the flips |
| Fannkuch.OneFlipMore | own/fannkuch.py:32 | exchanging 0 with a last number in place makes one flip more |
| Fannkuch.NextIsOneMore | own/fannkuch.py:44-49 | advancing the counts is adding one in the factorial number system |
| Fannkuch.ReachedDiffer | own/fannkuch.py:44-49 | different counts stand for different permutations |
| Fannkuch.DigitsFor | own/fannkuch.py:44-49 | every permutation has its counts |
| Fannkuch.Advance | own/fannkuch.py:44-51 | the rotations reach the permutation of the next counts; the else branch is taken after the last one |
| Fannkuch.Refill | own/fannkuch.py:28-30 | the lower counts start again |
| Fannkuch.MaxFlips | own/fannkuch.py:12-51 | each of the n! permutations is visited exactly once, and the result is the most flips over all of them |

## Left out

Weaker or different from the source, on purpose:

- BTreeSet.BTree.Insert: items are integers; the methods of a node that need the tree are methods of the tree with the node as an argument; a new root is made with its median and both children at once; the field `_bottom`, which nothing reads, is missing.
- Go.Board.Move: TIMESTAMP is a field of the board instead of a global shared by all boards; the move counter MOVES and the unused counters of dead stones are missing; Square.remove with and without update are two methods.
- AesCipher.MixColumnsInPlace: the key tables of multiples are not stored; a byte's multiples are taken from the product that the table entries are computed with.
- Richards.Run: packets and tasks are numbered fields, every head of a list is an entry of one map, and the comparison of the two final counters (multithread/multithread-richards.py:417) is not proved, because it depends on all ten thousand turns of one particular run.
- TimeZones.LocalizeInverts: datetimes are integers without bounds, and the ValueErrors for naive or aware arguments have no counterpart because the two are different types.
- QuickSortFutures.WaitForFutures: the thresholds for making a future (level 4, 1500 elements) are not fixed; any mixture of futures and direct calls is allowed, and any pending task may go on, also one of a future that no thread has begun.
- Schulze.Schulze: candidates are numbers from the start; reading the ballots is not modelled.
- Bwt.BwtTransform: characters are integers below 256, and other characters are outside the model.
- Fannkuch.MaxFlips: n = 0 is excluded, because the source raises an IndexError for it; the benchmark uses 9.
- SkipLists.SkipList.Find: the head's element, None in the source, is a number that is never read.
- TLQueue.RunKeepsInv: an atomic block is one step; a condition variable wakes every waiting thread.

Missing altogether:

- UCT search and score in own/go.py: logarithms and floating point.
- dropbits, move_to_front, checksums, headers and the block formats of own/pyflate-fast.py.
- ECB mode and the module function new of own/pyaes.py: they add only easy members to the cipher.
- bulkload of the B-tree: its loop test allows a root with order + 1 keys, and nothing uses it.
- TLQueue_concurrent, Worker and ThreadPool: thin wrappers, or unused by the benchmarks.
- evaluate and the damage arithmetic of own/bm_mdp.py: closed formulas.
- utcoffset, dst, tzname and pickling in lib/pytz/tzinfo.py.
- The input format and the printing of own/hexiom2.py; a solution is returned instead.
- own/deltablue.py, Lee routing, ray tracers, n-body, SciMark, splines: no crisp specification, or floating point.
- Harness, statistics, web servers and templates.
