# Verified model of gm_tmysql4: its zlib and its query pipeline

The module ships zlib 1.2.11 (`src/zlib`) and runs database queries on a worker thread
(`src/database.h`, `src/database.cpp`, `src/statement.cpp`). This project states what these
parts do in Dafny 4.11 and proves it. `dafny verify dfyconfig.toml` covers the whole project.

## What is modelled

**The encoder, `trees.c`.** `Heap`, `BuildTree`, `BitLengths`, `GenBitLen`, `Reassign` and
`HuffmanCodes` build a Huffman tree with the heap, limit the lengths and assign the codes;
`Weights` and `Huffman` say what such a tree is and prove that its lengths are optimal, `MinHeight`
that no code as cheap has a shorter longest word, and `RepairCost` what limiting the lengths costs.
`RunLength`, `SendTree`, `DynamicTrees` and `SendAllTrees` write the header of a dynamic block;
`StaticCodes`, `StaticTrees` and `CompressBlock` write the tokens; `BlockSizes` and `FlushBlock`
prove that the sizes of both coded forms are known exactly when one is chosen, and `BlockChoice`
how far the choice is from the smallest form.

**The decoder, `inftrees.c`, `inflate.c`, `inffast.c`.** `Canonical` is section 3.2.2 of RFC
1951. `DecodeTable`, `TableFill` and `InflateTable` are the two-level table and its construction;
`Enough` proves that the fixed table sizes are never exceeded. `InflateSpec` is a reader that works
on the whole bit string, one mode at a time, and decodes by comparing bits with codes.
`BitReader`, `TableLookup`, `Inflate`, `InflateLengths`, `InflateCodes`, `InflateMatch`, `Window` and
`InflateFast` are the code: accumulator, tables, sliding window, fast loop. `Inflater` is the
object a caller holds. Every call is shown to follow the reader, so `ChunkInvariance` is a
statement about sessions of calls.

**The match engine, `deflate.c`.** `HashChains`, `LongestMatch`, `Deflate` and `DeflateLoops`
keep window and dictionary and find matches; `Lz77` says what tokens stand for. `MatchSearch` says
of the text itself which earlier places are looked at and what is found; `GreedyMatching`,
`LazyMatching` and `RunTokens` say which tokens the three loops make of it.

**Both together.** `RoundTrip`, `RoundTripBlocks` and `Codec`: a stream laid out from the tokens of a
text, in blocks of any kind, is read back as that text. `DeflateStream` drives the match loops, the
tallies and the blocks over a text given in pieces, and so makes such a stream; `EndToEnd` offers it
piece by piece to an `Inflater`, with anything after it, and gets the text and nothing else.

**Checksums.** `Crc32`, `CrcTables`, `CrcLoops`, `CrcCombine`, `CrcDivision`, `CrcResidue` and `Adler32`.

**The pipeline.** `ActionQueue` interleaves the steps of any number of threads on the lock-free
queue; `WaitfreeQueue` is the same queue as a class on linked nodes; `ActionRuns` is the dialogue
with the server for one action; `Pipeline` interleaves the Lua thread and the worker.

### How the code is rendered

- Configuration: no FASTEST, UNALIGNED_OK, ZLIB_DEBUG, FORCE_STORED, FORCE_STATIC or
  INFLATE_STRICT. The static tables come from the loops that generate them. For the checksums
  both BYFOUR byte orders, the byte-wise loop, both settings of NO_DIVIDE and, in `adler32_combine`,
  both widths of `unsigned long` are modelled.
- Bit buffers and code words are numbers with shifts and masks (`Bits`); `|=` on disjoint bits is
  a sum. CRC registers are `bv32`. 32-bit wrap-around is explicit where it can occur (the countdown of
  `chain_length`), and absence of overflow is proved where the code relies on it (`Adler32`).
- Fields of `inflate_state`, `deflate_state` and the heap are records that methods pass on; the
  objects whose identity matters (bit writer, sliding window, inflater, prepared statement, queue)
  are classes; the decoding table, the trees of the encoder, the CRC tables and the
  GF(2) matrices are arrays changed in place. Macros that are repeated are loops.
- Ghost parameters carry what is known of the history (the text so far, the input already
  taken). They do not influence what a method computes.
- `zlib.h` says a caller must present unused input again; `Session` says so, too.
- The comment above `inflate_fast` asks for `state->bits < 8`. The code can come there with more
  bits when the previous call stopped inside a symbol; the precondition of `InflateFast.Fast` is what
  really holds: fewer than eight bits, or bits that are not yet enough for a step.
- `inflate_table` returns 1 for lack of room exactly when `Space` exceeds the limit; `EnoughRoom` shows
  that this never happens for the callers in `inflate.c`.
- The comment above `_tr_flush_block` promises the best encoding. The code compares whole bytes, and takes
  `stored_len + 4` for the size of a stored block, without the three bits that begin it and the
  padding. `BlockChoice` proves how much this can cost, when storing is best all the same, and gives
  15 bytes for which it is not.
- `gen_bitlen` moves down a longest code below the limit. That need not be the cheapest move:
  `RepairCost` gives frequencies for which another is cheaper, and proves exactly when it is not.
- `match_start` may become negative when the window slides; the code wraps it around, and only uses
  its difference to `strstart`.

## Model

| member | source | states |
|---|---|---|
| Canonical.MatchUnique | src/zlib/inftrees.c:64-83 | no bit string begins with the canonical codes of two symbols |
| Canonical.MatchExists | src/zlib/inftrees.c:64-83 | every bit string begins with some code of a complete set |
| Canonical.CodesOrdered | src/zlib/trees.c:583-605 | codes in canonical order: a later code lies outside the interval of bit strings of an earlier one |
| GenCodes.BiReverse | src/zlib/trees.c:1158-1168 | the loop reverses the low bits of a code |
| GenCodes.GenCodes | src/zlib/trees.c:572-605 | every element with a length gets the reversed canonical code of section 3.2.2 of RFC 1951; lengths stay |
| InflateTable.BackwardIncrement | src/zlib/inftrees.c:239-247 | the backwards increment is +1 on the bit-reversed code |
| InflateTable.SortSymbols | src/zlib/inftrees.c:141-147 | the counting sort lists the coded symbols by length and by number within a length |
| InflateTable.Replicate | src/zlib/inftrees.c:230-237 | an entry is written at exactly the indices that end in its code, nothing else changes |
| InflateTable.LookAhead | src/zlib/inftrees.c:264-273 | the look-ahead finds the length of the longest code below a root entry |
| InflateTable.CheckLengths | src/zlib/inftrees.c:131-139 | `left` is negative exactly for over-subscribed lengths, zero for complete ones |
| InflateTable.Build | src/zlib/inftrees.c:32-304 | result 0 exactly for acceptable lengths with room, and then the table decodes the canonical code; 1 and -1 exactly for lack of room and bad lengths |
| DecodeTable.LookupDecodes | src/zlib/inftrees.c:170-300 | looking up any known bits through root and sub-table gives what comparing them with the codes gives: the symbol's entry and all bits of its code, more bits needed, or an invalid code |
| DecodeTable.LookupSymbol | src/zlib/inftrees.c:170-300 | bits that begin with the code of a symbol give its entry and drop exactly its length |
| TableFill.NextRoot | src/zlib/inftrees.c:259-287 | in canonical order codes stay at a root entry or move, aligned, to the next one, so no sub-table is left half filled |
| TableFill.ReadyStays | src/zlib/inftrees.c:259-273 | a sub-table once opened is wide enough for every code below its root entry |
| Enough.SpaceIs | src/zlib/inftrees.c:200-283 | exact room taken by the sub-tables |
| Enough.EnoughRoom | src/zlib/inftrees.h:38-51 | every acceptable set of up to 286 literal/length or 30 distance lengths fits in 852 and 592 entries, which the source took from an exhaustive search |
| StaticCodes.TrStaticInit | src/zlib/trees.c:232-311 | the generating loops give every match length and distance the code whose range contains it |
| StaticCodes.LengthTablesAgree | src/zlib/trees.c:62-66 | encoder and decoder agree on base values and extra bits of the length symbols |
| StaticCodes.DistTablesAgree | src/zlib/trees.c:65-69 | they agree on both of the distance symbols, too |
| StaticCodes.LengthRule | src/zlib/inftrees.c:60-65 | the table of lengths follows the rule of section 3.2.5 of RFC 1951: four codes for each number of extra bits |
| StaticCodes.DistRule | src/zlib/inftrees.c:66-73 | so does that of distances, with two codes for each |
| StaticTrees.StaticTrees | src/zlib/trees.c:287-306 | the static trees carry the lengths and canonical codes of section 3.2.6 of RFC 1951 |
| StaticTrees.SameBits | src/zlib/inflate.c:278-320 | what is written with the static trees is what the decoder's fixed codes, with two more distance symbols, stand for |
| BitWriter.Writer.PutShort | src/zlib/trees.c:174-177 | appends the low and the high byte |
| BitWriter.Writer.SendBits | src/zlib/trees.c:211-223 | the stream grows by the low bits of the value, least significant first; the buffer never holds more than 16 bits |
| BitWriter.Writer.BiFlush | src/zlib/trees.c:1173-1185 | the stream stays the same and at most seven bits stay in the buffer |
| BitWriter.Writer.BiWindup | src/zlib/trees.c:1190-1203 | the stream is filled with zero bits to the byte boundary |
| CompressBlock.SendToken | src/zlib/trees.c:1074-1100 | one slot of the buffers is written as code, extra bits, code, extra bits |
| CompressBlock.CompressBlock | src/zlib/trees.c:1064-1109 | the stream grows by the encoding of the tokens in the buffers and the end-of-block code |
| RoundTrip.TokenRead | src/zlib/inflate.c:1044-1196 | the bits of a token lead the reader to the mode that holds exactly its literal, or its length and distance |
| RoundTrip.TokensRecovered | src/zlib/trees.c:1064-1109 | reading an encoded buffer passes through every token in turn and writes the text they stand for |
| RoundTrip.BodyRead | src/zlib/inflate.c:1044-1196 | the tokens and the end-of-block code are read up to the next block, or the end |
| RunLength.EmitExpands | src/zlib/trees.c:768-783 | what is sent for a run decodes to the run, with every repeat count within its field |
| RunLength.TwoTreesRoundTrip | src/zlib/inflate.c:959-1005 | the symbols for two arrays of lengths decode to their concatenation; no repeat reaches past it or lacks a predecessor |
| RunLength.ExpandGrows | src/zlib/inflate.c:994-1002 | reading a length symbol never shortens what has been read, so no repeat reached past the end |
| RunLength.RunTakes | src/zlib/trees.c:759-791 | a run of equal lengths between others takes one symbol for each 138 zeros, or two for the first seven and one for each six more of any other length, and for the rest one, or as many as there are below three |
| SendTree.SendTree | src/zlib/trees.c:748-793 | writes the run-length symbols of the lengths of a tree |
| SendTree.ScanTree | src/zlib/trees.c:703-742 | raises the frequencies by exactly the symbols that send_tree emits, and sets the guard |
| SendAllTrees.SendAllTrees | src/zlib/trees.c:834-858 | writes the counts, the code-length code and both arrays |
| RoundTripBlocks.OrdersAgree | src/zlib/trees.c:71-72 | encoder and decoder use the same order of code-length codes |
| SendAllTrees.OrderRule | src/zlib/trees.c:71-72 | that order is the repeats, zero, and then outwards from eight |
| RoundTripBlocks.HeaderRead | src/zlib/inflate.c:920-1040 | the header is read as exactly the codes it was written for |
| RoundTripBlocks.BlockRead | src/zlib/inflate.c:851-1196 | a stored, fixed or dynamic block is read as its text |
| RoundTripBlocks.StreamRead | src/zlib/trees.c:911-1008 | a stream of blocks of any kinds, the last one marked, is read as the whole text, and the reader is done |
| Heap.PqDownHeap | src/zlib/trees.c:451-474 | the heap order is established from a place on, and the same nodes are listed |
| Heap.FirstSmallest | src/zlib/trees.c:437-443 | the first place holds a smallest node |
| Heap.PqRemove | src/zlib/trees.c:430-435 | the smallest node is taken out and the order restored |
| MinHeight.HeightIs | src/zlib/trees.c:668-671 | the depth kept for the root of the tree is the length of its longest word |
| MinHeight.LongestWord | src/zlib/trees.c:437-444 | breaking ties by depth: no prefix code that costs as little as the tree has a shorter longest word |
| BuildTree.ForceTwo | src/zlib/trees.c:641-653 | unused symbols are counted until there are two: the first two, or the one after the only one in use, or the first; the totals are corrected by what they will add |
| BuildTree.MergeTwo | src/zlib/trees.c:664-684 | the two least frequent nodes become sons of a node with the sum of their frequencies; the pair is stored at the end of the heap array |
| BuildTree.Construct | src/zlib/trees.c:629-688 | the merges lead from the used symbols to a single root: a full binary tree whose inner frequencies are sums, each merge taking the two smallest nodes by frequency and then by depth |
| Huffman.RemovalOrder | src/zlib/trees.c:661-686 | nodes are taken out in nondecreasing order of frequency |
| Huffman.LowerBound | src/zlib/trees.c:661-686 | no lengths that satisfy the Kraft inequality cost less than the sum of the inner frequencies |
| Huffman.DepthsCost | src/zlib/trees.c:505-522 | the depths in the tree cost exactly that |
| Huffman.KraftInequality | src/zlib/trees.c:476-485 | the lengths of every prefix-free set of words satisfy the Kraft inequality |
| Huffman.HuffmanOptimal | src/zlib/trees.c:615-697 | the depths cost no more than the words of any prefix-free set |
| GenBitLen.LevelSplit | src/zlib/trees.c:505-515 | going down a level keeps the Kraft sum at one plus half of `overflow` in units of the longest code |
| GenBitLen.FirstPass | src/zlib/trees.c:500-524 | every node has its depth in the tree, cut at the limit; counts and totals are those of the leaves; `overflow` is twice the Kraft excess |
| GenBitLen.CutStep | src/zlib/trees.c:505-509 | going down a merge keeps every length the depth of its node in the tree, or the limit where a node above it or itself is deeper |
| BitLengths.ShorterExists | src/zlib/trees.c:531-533 | while codes are too many there is a shorter one to move down, so the search does not run off |
| BitLengths.Repair | src/zlib/trees.c:530-542 | the repair ends with Kraft sum exactly one and the same number of codes, after half of `overflow` rounds that each move down a longest code below the limit |
| RepairCost.StepAdds | src/zlib/trees.c:530-542 | what moving a code of any length down adds to the cost: the frequency of the rarest symbol with at most that length, less those of the most frequent with more bits, one for each length from there to the limit |
| RepairCost.ChosenCheapest | src/zlib/trees.c:533-536 | the move that the code chooses is no dearer than one at a shorter length if and only if the frequencies at the bounds of the lengths say so |
| RepairCost.ChosenDearer | src/zlib/trees.c:533-536 | frequencies of a tree with limit seven for which another move is cheaper |
| RepairCost.RankedCost | src/zlib/trees.c:544-561 | the cost of lengths given out by frequency, computed from their counts alone |
| BitLengths.KraftByCounts | src/zlib/trees.c:530-542 | the Kraft sum over the leaves is that of their counts |
| Reassign.SetLengths | src/zlib/trees.c:544-561 | every leaf gets a length, as many of each as the counts say; a rarer leaf never has the shorter one; `opt_len` follows |
| Reassign.RankedBest | src/zlib/trees.c:544-561 | when rarer leaves have no shorter lengths, no other way to give out as many of each length costs less |
| Huffman.DepthsRanked | src/zlib/trees.c:500-524 | in the tree itself rarer leaves are no less deep, else exchanging two lengths would beat the optimum |
| HuffmanCodes.GenBitLen | src/zlib/trees.c:486-562 | lengths between 1 and the limit that form a complete code for the used symbols, with exact totals; the depths themselves when no node of the tree given is deeper than the limit; rarer symbols never have shorter codes; as many of each length as the depths, cut and repaired in rounds, say |
| HuffmanCodes.GoodComplete | src/zlib/trees.c:530-561 | such lengths are those of a complete canonical code |
| HuffmanCodes.TotalsRight | src/zlib/trees.c:646-652 | the correction for forced symbols cancels what they add to the totals |
| HuffmanCodes.BestLengths | src/zlib/trees.c:486-524 | when the lengths are the depths no prefix code does better for the frequencies as they were |
| HuffmanCodes.BuildTree | src/zlib/trees.c:615-697 | the tree holds complete codes within the limit for exactly the used symbols, and the totals grow by the exact cost of the text; the merges form a Huffman tree of the used symbols, and when none of its nodes is deeper than the limit no prefix code does better; in any case no other assignment of as many codes of each length does |
| HuffmanCodes.NodesSmall | src/zlib/trees.c:668-671 | no node counts more than all symbols and those that were forced together |
| BlockSizes.BlockSize | src/zlib/trees.c:1064-1109 | the bits of the encoded tokens, from the frequencies |
| BlockSizes.HeaderSize | src/zlib/trees.c:834-858 | the bits of the header |
| DynamicTrees.HuffPadded | src/zlib/trees.c:996-1000 | lengths of zero at the end change no code |
| DynamicTrees.SomeLength | src/zlib/trees.c:811-818 | some code-length symbol above zero is used, so the search for the last one ends |
| DynamicTrees.BuildBlTree | src/zlib/trees.c:799-827 | the code-length code is made from the symbols to be sent and covers them, the last length sent is not zero, `opt_len` grows by exactly the bits of the header |
| DynamicTrees.HeaderShortest | src/zlib/trees.c:818-821 | so no header with fewer lengths would do |
| FlushBlock.Tally | src/zlib/trees.c:1014-1059 | the token is buffered and its symbols are counted, in 16 bits without wrapping around; the end of the block is asked for just when one place is left in the buffers |
| FlushBlock.NoWrap | src/zlib/trees.c:668-671 | with as many tokens as the buffers take no frequency of any node in either tree exceeds 16 bits |
| FlushBlock.NoWrapLengths | src/zlib/trees.c:799-827 | nor does any in the tree of the code lengths |
| FlushBlock.BodySize | src/zlib/trees.c:928-937 | the totals are the sizes of the block's tokens in the dynamic and in the static code |
| FlushBlock.BuildTrees | src/zlib/trees.c:927-942 | after both trees and the code-length tree, each made from its frequencies with no length sent in vain, `opt_len` and `static_len` are exactly the bits that would be written |
| FlushBlock.SendStored | src/zlib/trees.c:863-881 | type, padding, both length words and the bytes |
| FlushBlock.InitBlock | src/zlib/trees.c:407-420 | the trees count no token yet, and the end-of-block code once |
| FlushBlock.FlushBlock | src/zlib/trees.c:911-1008 | the stream grows by the bits of one block of the tokens, in the form that the rule chooses by the exact sizes of both coded forms, of which the dynamic one has the codes made from the frequencies; then the counts are those of no tokens, ready for the next block |
| BlockChoice.ChosenNear | src/zlib/trees.c:944-995 | own codes are chosen only when smallest of all; the static codes cost at most 7 bits more than own codes, or any number when asked for with Z_FIXED, and some coded form is then smaller than storing; storing costs at most 17 bits more than either code |
| BlockChoice.StoredBest | src/zlib/trees.c:962-971 | a stored block is not larger than either coded form if and only if its start, its padding, the lengths and the bytes fit in the smaller of them |
| BlockChoice.StoredLarger | src/zlib/trees.c:962-971 | 15 bytes that are stored, wherever the block begins, though the static codes take 10 to 17 bits less |
| InflateTheory.FixedAccepted | src/zlib/inflate.c:278-320 | the fixed codes are complete and acceptable |
| InflateTheory.FixedFits | src/zlib/inflate.c:278-320 | their tables fit, with root tables of nine and five bits |
| InflateTheory.StepStable | src/zlib/inflate.c:540-606 | a step that can be taken is the same however much input follows |
| InflateTheory.ReachesStable | src/zlib/inflate.c:540-606 | so is a whole run |
| InflateTheory.StepSane | src/zlib/inflate.c:851-1242 | lengths, distances, counts and codes stay in their ranges in every mode |
| InflateTheory.WrongExactly | src/zlib/inflate.c:851-1160 | the reader goes to its error mode exactly for the reasons for which the code gives a message |
| InflateSpec.StoppedSame | src/zlib/inflate.c:540-606 | two runs on the same bits that cannot go on end in the same place with the same output |
| BitReader.NeedBits | src/zlib/inflate.c:506-520 | the accumulator holds the next bits of the stream, as many as asked for, or the input has run out |
| BitReader.PeekIsLow | src/zlib/inflate.c:522-524 | the low bits of the accumulator are the next bits of the stream |
| BitReader.DropOk | src/zlib/inflate.c:526-531 | dropping bits advances the position by as many |
| TableLookup.LookupCode | src/zlib/inflate.c:1054-1071 | pulling bytes until an entry is short enough gives the decoding of the stream, or the input ends first |
| Window.Window.Update | src/zlib/inflate.c:396-444 | the window holds the last bytes of history and new output |
| Window.Window.GetDictionary | src/zlib/inflate.c:1302-1308 | what is read is the history held, oldest byte first |
| Inflater.Inflater.GetDictionary | src/zlib/inflate.c:1291-1312 | at any point of a stream the dictionary is the last 32K bytes of all output, or nothing if an error came before the window was used |
| Inflate.ModeType | src/zlib/inflate.c:851-886 | the header of a block is one step of the reader |
| Inflate.ModeStored | src/zlib/inflate.c:887-900 | so are the aligned lengths of a stored block, or the error |
| Inflate.ModeCopy | src/zlib/inflate.c:903-919 | copying a stretch of stored bytes is as many steps as bytes |
| Inflate.ModeTable | src/zlib/inflate.c:920-937 | the three counts, or the error for too many symbols |
| InflateLengths.ModeLenLens | src/zlib/inflate.c:938-958 | the lengths of the code-length code, those not sent set to zero, and its table |
| InflateLengths.ModeCodeLens | src/zlib/inflate.c:959-1040 | all lengths with their repeats, and both tables, or the reader's error |
| InflateCodes.ModeLen | src/zlib/inflate.c:1044-1092 | a literal/length symbol |
| InflateCodes.ModeLenExt | src/zlib/inflate.c:1093-1102 | the extra bits of a length |
| InflateCodes.ModeDist | src/zlib/inflate.c:1103-1129 | a distance symbol |
| InflateCodes.ModeDistExt | src/zlib/inflate.c:1130-1145 | the extra bits of a distance |
| InflateMatch.WindowRepeats | src/zlib/inflate.c:1149-1181 | bytes taken from the window are those `offset` back in history and output |
| InflateMatch.MatchBytes | src/zlib/inflate.c:1146-1190 | every piece copied from window tail, window head or output equals the per-byte copy, overlaps included |
| InflateMatch.ModeMatch | src/zlib/inflate.c:1146-1190 | a piece of a match is as many steps of the reader as bytes, or the distance is too far exactly when the reader says so |
| InflateMatch.ModeLit | src/zlib/inflate.c:1191-1196 | a literal is one step |
| InflateFast.FastFinds | src/zlib/inffast.c:103-114 | with 15 bits at hand a lookup always finds an entry |
| InflateFast.FastMatch | src/zlib/inffast.c:160-258 | the copy loops of the fast path give the per-byte copy |
| InflateFast.FastRound | src/zlib/inffast.c:103-288 | a round takes at most 6 input bytes, writes at most 258 output bytes, and follows the reader |
| InflateFast.GiveBackOk | src/zlib/inffast.c:292-303 | returning unused bytes keeps the position in the stream |
| InflateFast.Fast | src/zlib/inffast.c:50-305 | the fast loop writes and reaches what the reader reaches, and leaves the state as the slow path would |
| Inflater.FixedTables | src/zlib/inflate.c:278-320 | the tables of the fixed codes decode them |
| Inflater.Turn | src/zlib/inflate.c:655-1264 | one turn of the loop follows the reader in every mode |
| Inflater.Inflater.constructor | src/zlib/inflate.c:195-237 | a new stream stands at the start of the reader |
| Inflater.Inflater.Inflate | src/zlib/inflate.c:622-1275 | a call consumes a prefix of the input, at most 32 bits ahead of the reader and none beyond the end of the stream, writes at most the room given, follows the reader on all bits so far, and stops only for want of input or room, at the end, or on an error |
| ChunkInvariance.SessionReaches | src/zlib/inflate.c:540-606 | any session of calls is a run of the reader on the whole input |
| ChunkInvariance.StreamTaken | src/zlib/inflate.c:851-886 | when the stream has ended, the bytes consumed are those of the stream; what follows is left to the caller |
| ChunkInvariance.ChunkInvariant | src/zlib/inflate.c:622-1275 | two finished sessions on the same input end with the same mode, position and output, and at the end of the stream with the same input consumed, however input and room were split |
| ChunkInvariance.LargeCall | src/zlib/inflate.c:622-1275 | a single call with all input and enough room does what any finished session does |
| ChunkInvariance.CallProgress | src/zlib/inflate.c:1270-1275 | a call that is given input and room makes progress until the stream has ended or is in error |
| Lz77.ExpandConcat | src/zlib/inflate.c:1146-1190 | expanding two token lists one after the other is expanding their concatenation |
| Lz77.CopiedIs | src/zlib/inflate.c:1183-1190 | a copy is right when the text agrees with itself at the distance |
| HashChains.HashRolls | src/zlib/deflate.c:156-163 | after three updates the hash depends on the last three bytes only |
| HashChains.HashThird | src/zlib/deflate.c:1297-1312 | with the first two bytes equal, equal hashes mean equal third bytes |
| HashChains.InsertString | src/zlib/deflate.c:182-187 | the string joins its chain; every link within reach leads to the last earlier position with the same hash |
| HashChains.SlideHash | src/zlib/deflate.c:201-225 | all chains survive the slide of the window, what falls out becomes none |
| LongestMatch.ThirdByte | src/zlib/deflate.c:1331-1342 | a chain member with equal first two bytes has the third equal, too, though it is never compared |
| LongestMatch.Compare | src/zlib/deflate.c:1347-1357 | the unrolled comparison finds how long the strings agree, up to 258 |
| LongestMatch.Look | src/zlib/deflate.c:1322-1370 | a member is passed over only if it agrees in no more bytes than the best so far; else the best becomes the length of agreement |
| LongestMatch.Longest | src/zlib/deflate.c:1236-1377 | a result above `prev_length` is a real match of that length, within lookahead and MAX_DIST; no member looked at agrees further, up to lookahead and 258; the search stops exactly at the end of the chain within reach, when the budget is spent, or with a match of `nice_match` |
| MatchSearch.MembersAll | src/zlib/deflate.c:1372-1373 | the members of a chain are all inserted positions with the hash, nearest first, none left out |
| MatchSearch.LongestSearch | src/zlib/deflate.c:1236-1377 | said of the text: all candidates within reach are looked at from the nearest back, up to the budget or a match of `nice_match`; the length found is the furthest any of them agrees, and the place is the nearest that does |
| Deflate.FillWindow | src/zlib/deflate.c:1482-1562 | the window holds the end of the text, the place in it is kept, and there is enough lookahead or no more input; the window moves on only when MAX_DIST stays behind the place, and the dictionary keeps all positions still in it |
| Deflate.CoverMatch | src/zlib/deflate.c:1866-1896 | writing a true match extends what the tokens stand for by its length |
| DeflateLoops.DeflateFast | src/zlib/deflate.c:1824-1918 | the tokens expand to the input up to `strstart`, all of it when finished; they are those of steps each of which writes what the search finds, a literal when it finds less than three bytes |
| DeflateLoops.SlowRound | src/zlib/deflate.c:1930-2037 | a round writes the match held back, or its first byte as a literal, by what the search finds at the next place; exactly the positions passed are entered in the dictionary |
| DeflateLoops.DeflateSlow | src/zlib/deflate.c:1926-2049 | the tokens and the byte held back expand to the input up to `strstart`, all of it when finished; they are those of the rounds, from the first place of the text to its end |
| LazyMatching.LazyRule | src/zlib/deflate.c:1983-2023 | a match that is found is written if and only if what is found at the next place is no longer; otherwise a literal is |
| LazyMatching.AllEntered | src/zlib/deflate.c:1996-2012 | while input lasts the dictionary holds every position of the window up to the present one |
| DeflateLoops.DeflateRle | src/zlib/deflate.c:2057-2124 | the same for runs of distance one; when finished the tokens are a function of the text: every run of three bytes or more, whole up to 258, is a match |
| DeflateLoops.RunLength | src/zlib/deflate.c:2077-2092 | the scan finds how often the previous byte repeats, not beyond the longest match |
| Codec.StreamInflates | src/zlib/inflate.c:622-1275 | a stream that is laid out in blocks of any kind from tokens that stand for a text is inflated to the text |
| Codec.SessionInflates | src/zlib/inflate.c:622-1275 | so it is by every session of `inflate` calls that is followed to its end |
| DeflateStream.WriteBlocks | src/zlib/trees.c:911-1059 | tallying the tokens and ending a block whenever the buffers are full lays such a stream, from exactly these tokens, ended at a byte boundary; every block has the form that is chosen for its tokens; no buffer is overrun |
| DeflateStream.Deflate | src/zlib/deflate.c:763-1012 | a text given in any pieces and finished, with any window, tuning, loop and size of the buffers, becomes the tokens of its loop, laid out in bytes that inflate to the text and hold nothing after it |
| EndToEnd.InflateAll | src/zlib/inflate.c:622-1275 | offering bytes piece by piece to a new inflater is a session; Z_STREAM_END and Z_DATA_ERROR exactly at the end and in error, and Z_BUF_ERROR in spite of input and room only when the input says no more |
| EndToEnd.SessionText | src/zlib/inflate.c:622-1275 | a session on the stream of a text, whatever follows it, never writes anything but a prefix of the text; when it is finished, all of the text is written and just the stream is consumed |
| EndToEnd.RoundTrip | src/zlib/deflate.c:763-1012 | what is deflated inflates to the same text, however it is offered and whatever follows it: never an error, nothing but the text, and after enough offers Z_STREAM_END with just the stream consumed |
| CrcTables.MakePoly | src/zlib/crc32.c:103-106 | the pattern made from the exponents is 0xedb88320 |
| CrcTables.MakeCrcTable | src/zlib/crc32.c:88-128 | table k holds the register of a byte followed by k zero bytes, tables 4 to 7 the same with bytes reversed |
| CrcTables.NextEntry | src/zlib/crc32.c:122-126 | one table step is eight zero bits more |
| Crc32.ZerosLinear | src/zlib/crc32.c:66-80 | shifting in zero bits is linear over exclusive or |
| Crc32.ByteStep | src/zlib/crc32.c:198 | eight steps are a table entry for the low byte and a shift |
| Crc32.WordStep | src/zlib/crc32.c:260-262 | thirty-two steps are four table entries |
| Crc32.FourUpdates | src/zlib/crc32.c:260-262 | adding a memory word and shifting 32 bits is four byte updates |
| CrcLoops.ByByte | src/zlib/crc32.c:225-233 | the byte-wise loop computes the bit-at-a-time check |
| CrcLoops.Little | src/zlib/crc32.c:266-297 | so does the little-endian form, for every buffer, start value and alignment |
| CrcLoops.Big | src/zlib/crc32.c:306-337 | so does the big-endian form on the byte-reversed register |
| CrcLoops.Crc32Z | src/zlib/crc32.c:202-234 | the check for every machine; zero for no buffer |
| CrcResidue.CrcResidue | src/zlib/crc32.c:225-233 | a text followed by its own check leaves 0xdebb20e3 in a register that started with ones, whatever the text |
| CrcDivision.PolyCoefficient | src/zlib/crc32.c:62-64 | the constant has the coefficients of the generator below x^32 |
| CrcDivision.StepDivides | src/zlib/crc32.c:74-80 | a step multiplies the remainder by x, adds x^32 for the bit, and subtracts the generator if x^32 is there |
| CrcDivision.RegisterIsRemainder | src/zlib/crc32.c:66-86 | the register after a message is the remainder of message times x^32 (and the start value times x^n) on division by the generator |
| CrcDivision.RemainderUnique | src/zlib/crc32.c:66-72 | that remainder is the only one |
| CrcCombine.TimesLinear | src/zlib/crc32.c:344-358 | gf2_matrix_times is linear in the vector |
| CrcCombine.ProductComposes | src/zlib/crc32.c:361-369 | a matrix product is the composition of the maps |
| CrcCombine.MatrixTimes | src/zlib/crc32.c:344-358 | the loop adds the rows selected by the vector and stays inside the matrix |
| CrcCombine.MatrixSquare | src/zlib/crc32.c:361-369 | the square of the matrix, in place |
| CrcCombine.SquareDoubles | src/zlib/crc32.c:394-404 | squaring doubles the number of zero bits |
| CrcCombine.Combine | src/zlib/crc32.c:372-425 | the first check with exactly 8*len2 zero bits shifted in, added to the second; the first check alone for lengths not above zero |
| CrcCombine.CombineLaw | src/zlib/crc32.c:372-425 | that is the check of the concatenation, for all texts and start values |
| CrcCombine.CrcContinues | src/zlib/crc32.c:202-234 | checking in pieces is checking the whole |
| Adler32.Deferred | src/zlib/adler32.c:102-127 | putting the modulo off changes nothing |
| Adler32.NoOverflow | src/zlib/adler32.c:13-14 | NMAX bytes after a reduction stay below 2^32, even from halves that are not reduced |
| Adler32.Overflows | src/zlib/adler32.c:13-14 | NMAX + 1 bytes can overflow |
| Adler32.Mod28Is | src/zlib/adler32.c:33-37 | the shift form is the remainder for 28-bit values |
| Adler32.ModIs | src/zlib/adler32.c:38-42 | the shift form is the remainder for 32-bit values |
| Adler32.Mod63Is | src/zlib/adler32.c:43-55 | the shift form is the remainder for 63-bit values |
| Adler32.AdlerZ | src/zlib/adler32.c:63-131 | the byte-wise definition for every length and valid start value; 1 for no buffer; exact value for one byte |
| Adler32.OneByteRight | src/zlib/adler32.c:76-84 | the one-byte path agrees with the definition if and only if the second sum stays below twice BASE, as it does for valid start values |
| Adler32.OneByteWrong | src/zlib/adler32.c:76-84 | for 0xfffffff0 and the byte 0 it does not agree |
| Adler32.AdlerFormula | src/zlib/adler32.c:102-127 | both halves as sums of the bytes and of the bytes weighted by their place from the end, modulo 65521 |
| Adler32.AdlerContinues | src/zlib/adler32.c:63-131 | checking in pieces is checking the whole |
| Adler32.Combine | src/zlib/adler32.c:143-169 | for all values and either width of `unsigned long`: what the three conditional subtractions leave, without overflow of the sums; the combination for values with both halves below BASE; 0xffffffff for a negative length |
| Adler32.CombineRight | src/zlib/adler32.c:153-168 | the conditional subtractions give the remainders if and only if the sums are below three and four times BASE, as they are for such values |
| Adler32.CombineWrong | src/zlib/adler32.c:153-168 | for 0xffff and 0xffff they do not |
| Adler32.CombineLaw | src/zlib/adler32.c:143-169 | that is the checksum of the concatenation |
| ActionQueue.SwingKeeps | src/database.h:37-43 | a successful exchange keeps the list, even if the head was changed and changed back in between |
| ActionQueue.StepKeeps | src/database.h:37-62 | every step of every thread keeps the invariant |
| ActionQueue.NothingLost | src/database.h:34-65 | in every run, the lists popped, in order, and then the list in the queue, oldest first, are the successful pushes in their order |
| ActionQueue.PopsWhole | src/database.h:45-55 | a caller that walks its list to the end meets exactly what the exchange took, oldest first |
| ActionQueue.AllWalked | src/database.h:45-55 | with no thread at work every list has been met whole |
| ActionQueue.NeverBlocked | src/database.h:48-53 | the turns of the loops are possible whenever the code takes them |
| ActionQueue.ListUnique | src/database.h:45-55 | the list from a pointer is determined by memory |
| WaitfreeQueue.Queue.Push | src/database.h:37-43 | the node becomes the newest, after any number of spurious failures |
| WaitfreeQueue.Queue.PopAll | src/database.h:45-62 | the queue is emptied and the list returned, reversed in place, runs from the oldest to the newest |
| ActionRuns.PStatement.Prepare | src/statement.cpp:41-58 | the old handle is closed: at most one is open, whatever is thrown; the argument count becomes the number of parameters the server gives, on success only |
| ActionRuns.PStatement.Execute | src/statement.cpp:79-126 | the dialogue; an answer is followed by a reconnection if and only if the error is 2006, 2013 or 1053 and there was none before, by a preparation if and only if it is 1243 and there was none before, and either by another send if and only if it succeeded |
| ActionRuns.DialogueAnswers | src/statement.cpp:91-110 | every dialogue answers so at every place |
| ActionRuns.AnswersDialogue | src/statement.cpp:91-110 | and whatever answers so is a dialogue |
| ActionRuns.DialogueBounded | src/statement.cpp:91-110 | sends are bounded by the chances; the last answer is the one reported; what was carried out is never sent again |
| ActionRuns.DialogueThrows | src/statement.cpp:91-110 | a dialogue ends in an exception if and only if a reconnection or a preparation in it threw; only the latter needs the chance to prepare |
| ActionRuns.ThreeSends | src/statement.cpp:91-110 | both bounds are reached |
| ActionRuns.RunStatement | src/database.cpp:195-207 | at most three sends; an exception becomes a result; the action is pushed with its results in every case |
| ActionRuns.RunQuery | src/database.cpp:151-193 | at most two sends, a second one after a reconnection for 2006, 2013 or 1053; the query is pushed, with its results, if and only if no reconnection in the dialogue threw, and is else left as it was |
| Pipeline.StepKeeps | src/database.cpp:139-297 | every step of both threads keeps the invariant |
| Pipeline.InOrder | src/database.cpp:268-282 | at every point of every run, the actions pushed and those triggered are those posted first, each once, in order |
| Pipeline.AllTriggered | src/database.cpp:254-266 | after Disconnect every action posted before it has been pushed and triggered exactly once, in order |
| Pipeline.PushedAfterDialogue | src/database.cpp:151-207 | every push ends a whole dialogue: two sends at most for a query, three for a statement, with the answers to each error as above |
| Pipeline.MapAlone | src/database.cpp:392-407 | lua_Prepare changes the statement map only when nothing is queued and the worker waits |
| Pipeline.WaitEnds | src/database.cpp:254-257 | Disconnect, and lua_Prepare for its answer, wait a bounded number of worker steps, whatever the server answers |
| Pipeline.WorkerMoves | src/database.cpp:254-257 | until it is gone the worker can move whenever there is work or it has been told to stop |
| Pipeline.PrepareAnswered | src/database.cpp:392-398 | while lua_Prepare waits the worker can move if and only if it was not called from a callback of Disconnect's drain; if it was, nothing moves any more |
| Pipeline.LatePrepareReached | src/database.cpp:254-266 | a run that comes to such a wait |

## Left out

- gzip and zlib headers and trailers, dictionaries, `inflatePrime`, `inflateSync` and `syncsearch`, Z_BLOCK, Z_TREES and Z_FINISH of `inflate`, window sizes below 32K: they multiply cases without changing the decoding.
- Flushes of `deflate` between the start and Z_FINISH, `deflateParams`, `deflate_stored`, `deflate_huff`, `s->insert` above zero: the text is given in any pieces with Z_NO_FLUSH and then finished.
- Whether the window still holds the bytes of a block: it may be given its bytes or not. The request of the last token to end a block may be passed over or not (`deflate_slow` does so for its last literal). `flush_pending` and the sharing of `pending_buf` with the token buffers are not modelled, output is an unbounded sink.
- `detect_data_type` and the high-water mark of `fill_window`: they influence no output.
- DeflateLoops.DeflateFast: tokens are appended to one list, which `DeflateStream.WriteBlocks` passes on to `FlushBlock.Tally` afterwards, in the same order.
- FlushBlock.FlushBlock: totals are unbounded integers, where the code subtracts 1 from a 32-bit zero and adds more back; so are the frequencies of inner nodes, but `FlushBlock.NoWrap` shows that they stay in their 16 bits; a block's bytes are taken to be there only when they are fewer than 65536, as they are when they lie in a window of at most 64K.
- Inflater.Inflater.Inflate: allocation of the window cannot fail; the window is not allocated late.
- CrcLoops.Crc32Z: start values are 32-bit, where `unsigned long` may be wider.
- ActionRuns.RunQuery: how many further result sets the server announces is a number given with the call, and of a result only its error number is kept.
- ActionRuns.PStatement.Execute: a reconnection prepares the known statements again, this one among them; what becomes of its handle by that is not modelled, only whether it throws.
- WaitfreeQueue.Queue.Push: one thread only; the interleaving is in `ActionQueue`.
- ActionQueue.NothingLost: memory is sequentially consistent; the orders given to the atomic operations are not modelled.
- Pipeline.AllTriggered: callbacks do not call Poll or Disconnect, preparing again while a query reconnects does not throw, and the garbage-collection flag is off.
- Erasing a prepared statement from the map when Lua collects it (src/statement.cpp:139-148) can happen while the worker reconnects; it is not part of the pipeline's steps.
- Lua references and tables, result conversion, timers, connection options and the MySQL client library.
- `gzlib.c`, `gzread.c`, `gzwrite.c`, `gzclose.c`, `compress.c`, `uncompr.c` and `infback.c`: plumbing around, or a second copy of, what is modelled.
