# A verified model of zlib's DEFLATE core, its checksums, and two small parsers

This project models the compression library zlib 1.3.1 as it is used here, on raw DEFLATE
streams, together with the HPACK Huffman automaton of nghttp2 and the JSON tokenizer jsmn, and
proves what they promise. Code that works by changing state is modelled by classes, arrays and
loops with the same fields, branches and constants; each such method is proved against a
specification on values, and the theorems are about these specifications.

## What is proved

**Compressing and decompressing.** For every level, strategy, window and memory size, and for every
way of cutting up input, output and flushes, what `deflate` writes is a stream of legal blocks
that stands for exactly the input (`Deflate`, `RoundTrip.DeflateRun`), and every way of feeding
such a stream to `inflate` gives the input back (`RoundTrip.InflateUndoesDeflate`). Both come to an
end when there is enough room. Behind every full flush decoding can start afresh. The format is
specified once, in `Rfc1951`, as a machine that makes small steps over bits; `inflate`, including its
fast loop, refines that machine, and the blocks of the encoder are read back by it. What both sides
share of the format, tables and fields, is said a second time in `FormatLaws`, in closed form and by
streams that other implementations write.

- `Bits`, `Canonical`, `Rfc1951`, `FormatLaws`, `Blocks`, `CodeLengths`, `Streams`: bit strings, canonical
  codes, the format machine and laws of it, and the round trips of tokens, code lengths, blocks and
  streams.
- `InfTrees`, `Lookup`, `BitReader`, `InfState`, `InfFast`, `Window`, `Inflate`: the decoder.
- `BitWriter`, `GenCodes`, `CodeTables`, `Heap`, `Huffman`, `Depths`, `TreeBuild`, `Trees`: the entropy coder.
- `Hash`, `Lz77`, `Covers`, `DeflateState`, `Compress`, `DeflateStored`, `Deflate`: the matcher, the five
  compression functions and the call `deflate`.
- `RoundTrip`: the theorems that join the two sides.

**Checksums.** `Crc32` works with words as polynomials: the product of the code is the product modulo
p(x), the CRC is the remainder of a division, the tables and braids of `crc32_z` compute it in both
byte orders, and `crc32_combine` joins CRCs. `Adler32` proves the deferred modulo, its exact bound, and
`adler32_combine`.

**HPACK.** `Hpack` specifies the code tree, the walk bit by bit and the automaton over four bits, and
proves that the decoder accepts exactly encoded symbols with padding; `HpackTree` is the generator as
it works on linked nodes, and makes the table that the decoder needs.

**jsmn.** `Jsmn` proves the tokenizer against a specification on values: nesting of tokens, resuming
after a lack of tokens, and exactly when a parse succeeds. `JsmnSizes` tells from the text and the
ranges of the tokens which token holds which, and proves that all sizes count that.

## Where code and comments differ

- `inffast.c` (line 29) says that fewer than eight bits are held when it is entered. After a call
  that stopped within a code, up to fourteen can be held; the property that does hold, and is
  enough, is that the bits held do not decide the next symbol (`Lookup.Fresh`), so every byte given
  back is one that this call took.
- `trees.c` (line 658) says that a forced code is 0 or 1. When the only used symbol is 1, it is 2, which
  has no extra bits either, so the estimates stay right (`TreeBuild.Builder.ForceTwo`).
- The third byte is not compared by `longest_match` because of at least eight hash bits; with seven it
  would have to be (`Hash.SevenBitsAreNotEnough`). `deflateInit2_` makes at least eight.
- `adler32_z` looks at the first byte before it looks whether there is a buffer, when the length is 1;
  the model therefore asks for a buffer in that case.
- `jsmn_parse` without tokens does not see brackets that do not match (`Jsmn.CountIsBlind`), so it
  returns the number of a real parse exactly when the brackets match and there is room
  (`Jsmn.ParseSucceeds`).

## Model

| member | source | states |
|---|---|---|
| Deflate.Deflate | managed_components/espressif__zlib/zlib/deflate.c:946-1255 | One call, for every level, strategy, input, room and flush: the input taken is appended to the input so far and the output given to the output so far; the blocks sent and the tokens noted stand for exactly the input up to the position reached; Z_STREAM_ERROR and Z_BUF_ERROR are answered exactly when the state and arguments before the call say so, Z_OK means that all input was taken or all room used, Z_FINISH with room to spare ends the stream; a flush with room to spare leaves everything delivered and its mark, and a full flush adds a point to restart from; blocks are only added, and none of a kind that the strategy excludes. |
| RoundTrip.DeflateRun | managed_components/espressif__zlib/zlib/deflate.c:946-1255 | Calls over any pieces of input, with any room and flushes: a stream that ends is the bits of closed, legal blocks that stand for all input fed, and it ends when the end is asked for with room enough; without an end, all input is taken if there is room, and after a sync or full flush with room the output stands for all of it; every full flush with room leaves a restart point where it was; no block is of a kind that the strategy excludes. |
| Deflate.OutputBound | managed_components/espressif__zlib/zlib/deflate.c:1178-1253 | Between calls the output so far is at most 95 bits for each byte of input, the credit, which grows by at most 64 bits a call, and 64 bits. |
| RoundTrip.InflateUndoesDeflate | managed_components/espressif__zlib/zlib/inflate.c:590-1263 | Any session of inflate calls over a closed stream of readable blocks, however input and output are cut up, gives exactly the bytes that the blocks stand for and stops behind the last bit, once decoding is over or the room given was more than those bytes. |
| RoundTrip.FlushIsDecodable | managed_components/espressif__zlib/zlib/deflate.c:1197-1226 | What was sent up to a flush can be decoded in full: a session with enough room gives all bytes compressed so far and waits for the header of the next block. |
| RoundTrip.PartialFlushIsDecodable | managed_components/espressif__zlib/zlib/trees.c:878-893 | After an empty static block, of which up to seven bits may still be held back, a finished session has given all bytes that the blocks stand for. |
| RoundTrip.SessionEnds | managed_components/espressif__zlib/zlib/inflate.c:590-1263 | A session with more room than the decoded bytes take does come to an end. |
| RoundTrip.RestartStream | managed_components/espressif__zlib/zlib/deflate.c:1211-1218 | What was output behind a full flush is, by itself, the bits of blocks that stand for exactly the input behind the flush. |
| RoundTrip.RestartIsDecodable | managed_components/espressif__zlib/zlib/deflate.c:1211-1218 | A decoder that starts behind a full flush, with nothing but the bytes from there on, gives exactly the input behind it. |
| Deflate.FlushMark | managed_components/espressif__zlib/zlib/deflate.c:1203-1220 | After the mark of a full flush the history is forgotten: the mark is a restart point, and no later match may reach back beyond it. |
| Streams.ReadClosed | managed_components/espressif__zlib/zlib/trees.c:995-1087 | Any closed sequence of legal, readable blocks is a whole number of bytes and is decoded to its last bit, giving the bytes that the blocks stand for. |
| Streams.ReadOpen | managed_components/espressif__zlib/zlib/trees.c:995-1087 | Any open sequence of legal, readable blocks is decoded to its last bit, whatever follows, leaving the decoder at the header of a block. |
| Blocks.ReadBlock | managed_components/espressif__zlib/zlib/inflate.c:827-1182 | Stored, static or dynamic: the decoder reads the bits of a block as the bytes it stands for, and is left at the first bit behind it, with the flag of the last block. |
| Blocks.ReadToken | managed_components/espressif__zlib/zlib/trees.c:915-941 | The bits of a literal or match, extra bits included, are read back as that token. |
| FormatLaws.TransmissionOrder | managed_components/espressif__zlib/zlib/inflate.c:607-608 | The lengths of the code length code travel as 16, 17, 18, 0, and then outward from 8 to both sides: 8, 7, 9, 6, 10 and so on. |
| FormatLaws.KnownHeader | managed_components/espressif__zlib/zlib/inflate.c:898-1021 | A dynamic header given bit by bit, as any implementation may write it, is read as exactly the two sets of lengths that it announces. |
| FormatLaws.TenLetters | managed_components/espressif__zlib/zlib/inflate.c:827-1182 | Five literal bytes, which other implementations write for ten times the letter a, are decoded to that. |
| FormatLaws.FixedCodes | managed_components/espressif__zlib/zlib/trees.c:350-373 | The words of the fixed codes, by ranges of symbols, as section 3.2.6 of RFC 1951 lists them. |
| FormatLaws.LengthTable | managed_components/espressif__zlib/zlib/trees.c:62-63 | Bases and extra bits of the length codes in closed form. |
| FormatLaws.DistTable | managed_components/espressif__zlib/zlib/trees.c:65-66 | Bases and extra bits of the distance codes in closed form. |
| FormatLaws.Repeats | managed_components/espressif__zlib/zlib/inflate.c:951-984 | The three repeats of code lengths, by the number of bits behind them and what they repeat, and when they are an error. |
| FormatLaws.TableCounts | managed_components/espressif__zlib/zlib/inflate.c:898-916 | The three counts of a dynamic header, lowest bit first, and the two limits. |
| FormatLaws.BlockTypes | managed_components/espressif__zlib/zlib/inflate.c:827-862 | What each of the four block types, as two bits, leads to. |
| FormatLaws.StoredLengths | managed_components/espressif__zlib/zlib/inflate.c:863-880 | The two lengths of a stored block, lowest bit first, are taken exactly if each is the complement of the other. |
| Hash.ThirdByte | managed_components/espressif__zlib/zlib/deflate.c:1441-1454 | With at least eight hash bits, equal hashes and equal first two bytes force the third bytes to be equal, so longest_match need not compare them. |
| Hash.SevenBitsAreNotEnough | managed_components/espressif__zlib/zlib/deflate.c:141-141 | With seven hash bits two strings that differ in the third byte only have the same hash. |
| Hash.KeyRolls | managed_components/espressif__zlib/zlib/deflate.c:136-141 | Updating the hash of three bytes with a fourth gives the hash of the last three. |
| Lz77.InsertKeeps | managed_components/espressif__zlib/zlib/deflate.c:155-164 | INSERT_STRING keeps the index: every live entry of a hash chain is a string with the hash of its chain, in falling order of position. |
| Lz77.SlideKeeps | managed_components/espressif__zlib/zlib/deflate.c:187-209 | Sliding the hash chains by the window size, with the old entries set to none, keeps the index over the moved window. |
| Lz77.Matcher.InsertString | managed_components/espressif__zlib/zlib/deflate.c:155-164 | The string is inserted in place, and the old head of its chain, which is an earlier string with the same hash, is returned. |
| Lz77.Matcher.SlideHash | managed_components/espressif__zlib/zlib/deflate.c:187-209 | Both tables are slid in place, and the index holds for the window moved by its size. |
| Lz77.Matcher.ReadBuf | managed_components/espressif__zlib/zlib/deflate.c:218-242 | Input moves from the caller to the end of the window: none is lost, none comes up, and some is read if there is room and input. |
| Lz77.Matcher.FillWindow | managed_components/espressif__zlib/zlib/deflate.c:251-368 | The window is filled until there is enough lookahead or no input: across any slide the index, the positions, the rolling hash and the zeroed bytes ahead stay right, and no input is lost. |
| Lz77.Matcher.Extent | managed_components/espressif__zlib/zlib/deflate.c:1453-1469 | The unrolled comparison, with a test after eight bytes only, finds how many bytes two strings have in common, up to 258. |
| Lz77.Matcher.Candidate | managed_components/espressif__zlib/zlib/deflate.c:1441-1469 | A candidate that the four byte tests reject has no more bytes in common than the best so far; for any other its common length is found. |
| Lz77.Matcher.LongestMatch | managed_components/espressif__zlib/zlib/deflate.c:1348-1489 | A length above the one given is a real match within the lookahead and in reach; and unless it is long enough to stop at, no candidate that the chain limit allows has more bytes in common. |
| Lz77.Matcher.RunLength | managed_components/espressif__zlib/zlib/deflate.c:2060-2078 | The search of deflate_rle: how long the byte before the current one goes on, cut to the lookahead, which is a real match at distance one. |
| Compress.PutOffMoves | managed_components/espressif__zlib/zlib/deflate.c:1910-2027 | A match put off by lazy evaluation is still one after more input and a slide of the window, even when its start falls before the window. |
| Compress.DeflateFast | managed_components/espressif__zlib/zlib/deflate.c:1811-1902 | Greedy matching: tokens and blocks stand for exactly the input up to the current position, across all slides, flushes and interruptions for lack of room. |
| Compress.DeflateSlow | managed_components/espressif__zlib/zlib/deflate.c:1910-2027 | Lazy matching: the same, with the one byte or match that is put off accounted for. |
| Compress.DeflateRuns | managed_components/espressif__zlib/zlib/deflate.c:2038-2139 | deflate_rle and deflate_huff: the same, for runs of one byte and for literals alone. |
| Compress.RunTurn | managed_components/espressif__zlib/zlib/deflate.c:2060-2098 | The token noted is a match of distance one as long as the run of the last byte goes on in the lookahead, up to 258, if that is three or more and the strategy is for runs, and the next byte otherwise. |
| DeflateStored.DeflateStored | managed_components/espressif__zlib/zlib/deflate.c:1627-1802 | Level 0: the stored blocks sent, directly or by way of the pending buffer, and the bytes that wait in the window, are exactly the input taken. |
| DeflateStored.CopyDirect | managed_components/espressif__zlib/zlib/deflate.c:1640-1709 | The direct copies send window bytes before input bytes, none twice and none left out, and mark the last block only when all input is in it. |
| DeflateStored.EndDirect | managed_components/espressif__zlib/zlib/deflate.c:1717-1745 | What was copied directly from the input is kept in the window as history, and the account goes on behind it. |
| DeflateStored.FillStored | managed_components/espressif__zlib/zlib/deflate.c:1756-1777 | The rest of the input is read into the window as far as it goes, after a slide if need be: no input is lost, and the bytes that wait to be sent stay the same input bytes. |
| Covers.CoverMatch | managed_components/espressif__zlib/zlib/deflate.c:1848-1854 | Noting a real match of at least three bytes moves the account of the input on by its length. |
| DeflateState.DeflateState.TallyLit | managed_components/espressif__zlib/zlib/deflate.h:333-338 | Noting the next byte as a literal moves the account on by one, and the block is full when one place is left. |
| DeflateState.DeflateState.TallyDist | managed_components/espressif__zlib/zlib/deflate.h:340-348 | Noting a real match moves the account on by its length. |
| DeflateState.DeflateState.FlushBlockOnly | managed_components/espressif__zlib/zlib/deflate.c:1589-1606 | The noted tokens become a block: bytes given out, pending bytes and held bits are the bits of all blocks sent, which stand for all input before the current position. |
| BitWriter.Writer.SendBits | managed_components/espressif__zlib/zlib/trees.c:252-282 | The low bits of the value are appended to the stream of bytes taken out, pending bytes and held bits, and no byte behind the pending ones changes. |
| BitWriter.Writer.FlushPending | managed_components/espressif__zlib/zlib/deflate.c:915-933 | For any room, the bits sent stay those of the bytes taken out, the pending bytes and the bits held; bytes stay pending only when the room is used up. |
| BitWriter.Writer.Windup | managed_components/espressif__zlib/zlib/trees.c:181-192 | The stream is padded with zeros to a byte boundary and nothing is held. |
| Canonical.StartIsCode | managed_components/espressif__zlib/zlib/trees.c:202-231 | The recurrence for the first code of each length places the code of a symbol, before the reversal of its bits, at the beginning of its stretch of the 15-bit code space. |
| Canonical.Disjoint | managed_components/espressif__zlib/zlib/trees.c:202-231 | The stretches of code space of two symbols do not meet, and lie in the order of length and symbol; this is of the codes before reversal, which GenCodes.GenerateCodes stores. |
| Canonical.PrefixFree | managed_components/espressif__zlib/zlib/trees.c:202-231 | No code word begins another, unless the lengths are over-subscribed. |
| Canonical.CompleteMatches | managed_components/espressif__zlib/zlib/trees.c:202-231 | Lengths that fill the code space have a code word at the beginning of every 15 bits. |
| GenCodes.BiReverse | managed_components/espressif__zlib/zlib/trees.c:154-161 | The result is the bits of the code in reverse. |
| GenCodes.GenerateCodes | managed_components/espressif__zlib/zlib/trees.c:202-231 | Every symbol with a length gets its canonical code of section 3.2.2 of RFC 1951, reversed, and the other entries keep their values. |
| Heap.PqDownHeap | managed_components/espressif__zlib/zlib/trees.c:507-526 | The node sinks to where the heap order by frequency and depth holds from its place on, and the nodes on the heap stay the same. |
| Heap.FirstIsLeast | managed_components/espressif__zlib/zlib/trees.c:486-499 | The first node of a heap is not greater than any other. |
| TreeBuild.Builder.MergeAll | managed_components/espressif__zlib/zlib/trees.c:665-695 | The heap loop merges two least nodes each time until one is left, records every father, and lays the nodes out in falling order of frequency. |
| Huffman.Optimal | managed_components/espressif__zlib/zlib/trees.c:665-695 | Huffman's theorem: when no length is limited, no lengths that satisfy the Kraft inequality have a smaller sum of frequency times length. |
| Depths.PrefixFreeFeasible | managed_components/espressif__zlib/zlib/trees.c:665-695 | The word lengths of every prefix code satisfy the Kraft inequality, so that the theorem covers all prefix codes. |
| TreeBuild.CheapestOfAll | managed_components/espressif__zlib/zlib/trees.c:625-704 | Lengths that are cheapest by the Kraft inequality are no dearer than the words of any prefix code on the symbols. |
| Depths.LengthIsDepth | managed_components/espressif__zlib/zlib/trees.c:557-575 | The length that the first pass gives a node is its depth in the tree of merges, limited to the greatest length. |
| Depths.OverIsDeep | managed_components/espressif__zlib/zlib/trees.c:557-575 | Some father is given the greatest length, so that its sons overflow, exactly when some symbol of the tree of merges lies deeper than that length. |
| Depths.RareIsShallow | managed_components/espressif__zlib/zlib/trees.c:557-575 | With a total frequency below the Fibonacci number of the greatest length plus three, no symbol lies too deep, so no length is limited. |
| TreeBuild.PassedLengths | managed_components/espressif__zlib/zlib/trees.c:557-575 | After the first pass the overflow is even; it is zero exactly when no symbol is too deep, and the lengths are then the cheapest; otherwise half of it is the excess of the Kraft sum in units of the longest code. |
| TreeBuild.Builder.Repair | managed_components/espressif__zlib/zlib/trees.c:582-592 | The repair loop ends, always finds a length to increase, and leaves counts that fill the code space exactly. |
| TreeBuild.Builder.Reassign | managed_components/espressif__zlib/zlib/trees.c:599-610 | The lengths are given out anew as counted, none above the limit, and in the order of falling frequency none is smaller than one before; the estimate follows. |
| TreeBuild.Builder.GenBitLen | managed_components/espressif__zlib/zlib/trees.c:538-611 | Kraft equality, no length above the limit, no longer code for a more frequent symbol, exact estimates; and the cheapest lengths, equal to the depths, if no symbol is too deep. |
| TreeBuild.Builder.BuildTree | managed_components/espressif__zlib/zlib/trees.c:625-704 | The whole tree: two codes at least, canonical code words, lengths as of gen_bitlen, and estimates that grow by exactly what the occurring symbols take; the lengths are cheapest if no symbol of the tree lies too deep, and always if the total frequency is below a Fibonacci number. |
| CodeLengths.TreeRoundTrip | managed_components/espressif__zlib/zlib/trees.c:710-792 | Carrying out what a tree is sent as, with repeats, gives its lengths back exactly, and repeat-previous never comes first. |
| Trees.ScanTree | managed_components/espressif__zlib/zlib/trees.c:710-745 | The frequencies grow by the counts of exactly the symbols that send_tree sends for the tree. |
| Trees.SendTree | managed_components/espressif__zlib/zlib/trees.c:751-792 | The bits sent for a tree are those of its run-length coding. |
| CodeLengths.ReadTrees | managed_components/espressif__zlib/zlib/inflate.c:898-1021 | The header of a dynamic block, with its three codes, is read back as both length arrays. |
| Trees.BuildBlTree | managed_components/espressif__zlib/zlib/trees.c:798-824 | The code length code is built, the last one sent is found, and opt_len grows by exactly the bits of the header. |
| Trees.SendAllTrees | managed_components/espressif__zlib/zlib/trees.c:831-851 | The bits sent are the header of a dynamic block for the two length arrays. |
| Trees.CompressBlock | managed_components/espressif__zlib/zlib/trees.c:898-949 | The tokens of the symbol buffer and the end of the block are sent in the given codes, within the room they take. |
| Trees.CompressOverlay | managed_components/espressif__zlib/zlib/trees.c:898-949 | With the symbols in the pending buffer itself, from lit_bufsize on, a static block comes out the same: no symbol is overwritten before it is read. |
| Trees.OverlayBound | managed_components/espressif__zlib/zlib/deflate.c:457-517 | After k tokens of a static block the pending bytes end at or before the place of the symbols still to be read. |
| Trees.TrStaticInit | managed_components/espressif__zlib/zlib/trees.c:350-375 | The static trees have the canonical codes of their lengths. |
| CodeTables.LengthTable | managed_components/espressif__zlib/zlib/trees.c:315-328 | The table holds, for every match length, exactly the code that the tokens are sent with, the one whose base and extra bits cover the length. |
| CodeTables.DistTable | managed_components/espressif__zlib/zlib/trees.c:330-348 | The two halves of the table give, for every distance, exactly the code that the tokens are sent with, the one whose base and extra bits cover the distance. |
| Trees.BlockState.Choose | managed_components/espressif__zlib/zlib/trees.c:1004-1046 | By whole bytes, static is chosen if the strategy is fixed or if it takes no more than the block in its own codes, those otherwise, and stored instead of either exactly if the bytes are at hand and take no more than that. |
| Trees.BlockState.FlushBlock | managed_components/espressif__zlib/zlib/trees.c:995-1087 | Exactly the bits of one legal block are appended, padded to a byte boundary if it is the last, in the form that Choose describes, where the form in its own codes has the code lengths of build_tree for the tokens; with the bytes at hand the block takes at most 8 times their number and 42 bits; the counts start anew. |
| Trees.NoneShorter | managed_components/espressif__zlib/zlib/trees.c:1033-1072 | So no form that is allowed takes fewer bytes, and none in codes of its own is sent when the strategy is fixed. |
| Trees.BlockState.DynamicBlock | managed_components/espressif__zlib/zlib/trees.c:1063-1074 | A dynamic block takes exactly opt_len bits behind its three-bit header. |
| Trees.DynIsSymbolBits | managed_components/espressif__zlib/zlib/trees.c:572-573 | What build_tree adds to the estimates is what the symbols take, extra bits included. |
| Trees.StoredBlock | managed_components/espressif__zlib/zlib/trees.c:858-873 | The bits of a stored block are appended, and nothing is held. |
| Trees.BlockState.Align | managed_components/espressif__zlib/zlib/trees.c:886-893 | The bits of an empty static block are appended. |
| InfTrees.InflateTable | managed_components/espressif__zlib/zlib/inftrees.c:32-299 | The result is -1 exactly for over-subscribed or incomplete lengths that are not permitted, 1 exactly if the tables do not fit, and otherwise the tables hold the entry of every code word; nothing is written beyond them. |
| InfTrees.ProbeDecodes | managed_components/espressif__zlib/zlib/inflate.c:1036-1056 | One look at the root table and at most one at a sub-table give, for any bits, the symbol whose code word they begin with and its length, ask for more bits, or find the invalid marker. |
| InfTrees.SortSymbols | managed_components/espressif__zlib/zlib/inftrees.c:140-142 | The symbols with codes are put in the order of length and symbol. |
| InfTrees.LookaheadExact | managed_components/espressif__zlib/zlib/inftrees.c:261-269 | For a complete code, the bits that the lookahead over the counts finds for a sub-table are exactly those of its longest code. |
| Lookup.LookUp | managed_components/espressif__zlib/zlib/inflate.c:1036-1056 | Bytes are taken one by one only while the bits held do not decide; then the entry of the next symbol is found, or no code matches, or all input is taken. |
| BitReader.NeedBits | managed_components/espressif__zlib/zlib/inflate.c:484-488 | The unread bits stay the same, and afterwards enough bits are held or no input is left. |
| BitReader.ByteBits | managed_components/espressif__zlib/zlib/inflate.c:502-506 | The unread bits go on at the next byte boundary of the stream. |
| Rfc1951.StepFeed | managed_components/espressif__zlib/zlib/inflate.c:827-1182 | A step of the format machine is the same with more input behind, which is why no step may be taken before its bits are there. |
| Rfc1951.StuckUnique | managed_components/espressif__zlib/zlib/inflate.c:827-1182 | Two runs of the format machine from one place that cannot go on end in the same place. |
| InfState.InflateState.DoType | managed_components/espressif__zlib/zlib/inflate.c:827-862 | The mode TYPE follows the format machine: it takes the three bits of a header only when they are there, and sets the fixed tables, the lengths of a stored block or a dynamic one, or the error. |
| InfState.InflateState.DoStored | managed_components/espressif__zlib/zlib/inflate.c:863-880 | The mode STORED follows the format machine, from the byte boundary to the two lengths, and their mismatch. |
| InfState.InflateState.DoCopy | managed_components/espressif__zlib/zlib/inflate.c:881-897 | Stored bytes are copied as far as input and room go, as the format machine takes them one by one. |
| InfState.InflateState.DoTable | managed_components/espressif__zlib/zlib/inflate.c:898-916 | The mode TABLE follows the format machine, with its limits of 286 and 30. |
| InfState.InflateState.DoLenLens | managed_components/espressif__zlib/zlib/inflate.c:917-938 | The mode LENLENS follows the format machine, to the table of the code length code or its error. |
| InfState.InflateState.DoCodeLens | managed_components/espressif__zlib/zlib/inflate.c:939-1022 | The mode CODELENS follows the format machine through all repeats and errors, to both decoding tables, and can stop between any two lengths. |
| InfState.InflateState.DoLen | managed_components/espressif__zlib/zlib/inflate.c:1026-1075 | The mode LEN follows the format machine for a literal, a length, the end of the block or an invalid code. |
| InfState.InflateState.DoDist | managed_components/espressif__zlib/zlib/inflate.c:1087-1114 | The mode DIST follows the format machine for a distance code or an invalid one. |
| InfState.InflateState.DoMatch | managed_components/espressif__zlib/zlib/inflate.c:1132-1176 | A match is copied from the window and the output, as far as there is room, as the byte-by-byte copy of the format machine; a distance beyond all bytes produced is the error. |
| InfState.InflateState.FixedTables | managed_components/espressif__zlib/zlib/inflate.c:252-285 | The fixed tables decode the fixed codes. |
| InfFast.FastTurn | managed_components/espressif__zlib/zlib/inffast.c:100-287 | One turn of the fast loop follows the format machine for a literal or a whole match, taking at most six bytes and making at most 258. |
| InfFast.FastCopy | managed_components/espressif__zlib/zlib/inffast.c:156-261 | The three cases of the window and the copies by threes make the bytes that a copy one by one from the history makes. |
| InfFast.InflateFast | managed_components/espressif__zlib/zlib/inffast.c:50-304 | The fast loop follows the format machine from where it was called; the whole bytes that it gives back leave the bit position as it is, and the mode is LEN, TYPE or BAD. |
| Window.UpdateWindow | managed_components/espressif__zlib/zlib/inflate.c:368-412 | The ring holds the last bytes of all output, before and after, in each of the four cases. |
| Inflate.Loop | managed_components/espressif__zlib/zlib/inflate.c:619-1235 | The loop ends, follows the format machine, and stops only when decoding is over, the room is used up, or all input is taken and does not allow a step. |
| Inflate.Inflate | managed_components/espressif__zlib/zlib/inflate.c:590-1263 | One call: output and position are those of a run of the format machine from where the last call stopped; the answer tells how it ended, Z_BUF_ERROR exactly if nothing was taken or given and decoding is not over; after an error a call does nothing and answers with it again. |
| Inflate.CutsDoNotMatter | managed_components/espressif__zlib/zlib/inflate.c:590-1263 | Two sessions over one stream that have come to an end, however input and output were cut up, have the same output, verdict and unread rest. |
| Inflate.OutputIsPrefix | managed_components/espressif__zlib/zlib/inflate.c:590-1263 | What any session has given so far begins what every finished session gives. |
| Inflate.SessionProgress | managed_components/espressif__zlib/zlib/inflate.c:1242-1263 | A session has come to an end, or has filled all room of the calls that were offered the rest of the stream. |
| Inflate.GetDictionary | managed_components/espressif__zlib/zlib/inflate.c:1278-1296 | The bytes copied are the last of all those produced, 32768 if there are so many, and nothing else of the array changes. |
| Crc32.Multmodp | managed_components/espressif__zlib/zlib/crc32.c:155-171 | For a non-zero first factor the loop ends, and the product is that of the polynomials modulo p(x). |
| Crc32.MulIsPolyMul | managed_components/espressif__zlib/zlib/crc32.c:155-171 | The product of words is the remainder of the product of polynomials. |
| Crc32.MulAssoc | managed_components/espressif__zlib/zlib/crc32.c:155-171 | The product of words is associative. |
| Crc32.Tables.X2nmodp | managed_components/espressif__zlib/zlib/crc32.c:176-187 | The result is x to the power n times 2^k, modulo p(x), from a table of 32 powers. |
| Crc32.PowersRepeat | managed_components/espressif__zlib/zlib/crc32.c:173-187 | The powers x^(2^k) repeat with period 32, so that the table index may be taken modulo 32. |
| Crc32.Tables.MakeBytes | managed_components/espressif__zlib/zlib/crc32.c:314-323 | The byte table holds what eight shifts make of each byte, in both byte orders. |
| Crc32.Tables.MakePowers | managed_components/espressif__zlib/zlib/crc32.c:325-329 | The power table holds x^(2^k) for k below 32. |
| Crc32.Tables.Braid | managed_components/espressif__zlib/zlib/crc32.c:528-540 | The braiding tables hold what a byte of a word does to the register five words later, in both byte orders. |
| Crc32.Tables.CrcWord | managed_components/espressif__zlib/zlib/crc32.c:676-681 | The result is the word after 32 shifts. |
| Crc32.Blocks | managed_components/espressif__zlib/zlib/crc32.c:734-857 | The five braided registers, combined at the end, make what the bits of all blocks make one by one. |
| Crc32.BlocksBig | managed_components/espressif__zlib/zlib/crc32.c:859-981 | The same for words whose first byte is the highest. |
| Crc32.Crc32Z | managed_components/espressif__zlib/zlib/crc32.c:694-1010 | For every buffer, start value, address and byte order the result is the CRC taken bit by bit; without a buffer it is 0. |
| Crc32.CrcIsRemainder | managed_components/espressif__zlib/zlib/crc32.c:694-1010 | The CRC, complemented, is the remainder, and the only one, of the complemented start and the data divided by p(x). |
| Crc32.Combine | managed_components/espressif__zlib/zlib/crc32.c:1021-1026 | From the CRCs of two pieces and the length of the second comes the CRC of both together. |
| Adler32.Adler32Z | managed_components/espressif__zlib/zlib/adler32.c:61-125 | For every length the result is the checksum of section 9 of RFC 1950 taken byte by byte, both sums reduced, and no 32-bit sum overflows on the way. |
| Adler32.Fits | managed_components/espressif__zlib/zlib/adler32.c:10-12 | 5552 bytes added to reduced sums stay below 2^32, and fewer than 16 stay below twice the base. |
| Adler32.NmaxIsExact | managed_components/espressif__zlib/zlib/adler32.c:10-12 | 5553 bytes can exceed 32 bits. |
| Adler32.Combine | managed_components/espressif__zlib/zlib/adler32.c:133-155 | From the checksums of two pieces and the length of the second comes the checksum of both together, fully reduced; a negative length gives 0xffffffff. |
| Adler32.ClosedForm | managed_components/espressif__zlib/zlib/adler32.c:61-125 | The checksum in closed form: one plus the sum of all bytes, and their number plus the sum of each byte times the number of bytes from it on, modulo 65521. |
| Hpack.BuiltAt | managed_components/espressif__nghttp/nghttp2/mkhufftbl.py:296-309 | The tree of a prefix code has a node for exactly the beginnings of its code words, and a symbol where its word ends. |
| Hpack.FollowIsWalk | managed_components/espressif__nghttp/nghttp2/mkhufftbl.py:326-347 | Four bits followed as _traverse does lead where four single steps in the tree lead, with the same symbol on the way, one at most. |
| Hpack.TableIs | managed_components/espressif__nghttp/nghttp2/mkhufftbl.py:362-387 | The printed row of every state has sixteen entries, those of the four-bit steps from its node, and the row of the failure state leads back to it. |
| Hpack.NibbleStep | managed_components/espressif__nghttp/nghttp2/lib/nghttp2_hd_huffman.c:110-142 | One look at the table moves from state to state as the walk of the four bits does, marks accepted states exactly when the path is up to seven ones, and stays in failure after EOS. |
| Hpack.HuffDecode | managed_components/espressif__nghttp/nghttp2/lib/nghttp2_hd_huffman.c:110-142 | A string in any number of pieces gives the symbols of the walk bit by bit, and the last piece is refused exactly if EOS was among them or the rest is not up to seven ones. |
| Hpack.StringBit | managed_components/espressif__nghttp/nghttp2/lib/nghttp2_hd_huffman.c:122-133 | The bits of a string are those of its bytes, the highest of each byte first. |
| Hpack.WalkEncoded | managed_components/espressif__nghttp/nghttp2/mkhufftbl.py:296-309 | The walk over encoded symbols gives them back and ends at the root. |
| Hpack.AcceptedIsEncoded | managed_components/espressif__nghttp/nghttp2/lib/nghttp2_hd_huffman.c:110-142 | A string ends in an accepted state exactly if it is the code words of symbols with up to seven ones behind, and then these symbols are given. |
| HpackTree.AddCode | managed_components/espressif__nghttp/nghttp2/mkhufftbl.py:296-309 | The linked nodes are extended in place by the path of a code word. |
| HpackTree.SetNodeId | managed_components/espressif__nghttp/nghttp2/mkhufftbl.py:314-321 | The inner nodes are numbered in preorder, in place, and marked as accepted exactly on paths of up to seven ones. |
| HpackTree.TraverseFrom | managed_components/espressif__nghttp/nghttp2/mkhufftbl.py:326-347 | The sixteen transitions are appended in order to the list of the node, and a second symbol never comes up. |
| HpackTree.BuildTransitions | managed_components/espressif__nghttp/nghttp2/mkhufftbl.py:349-354 | Every node gets exactly its transitions. |
| HpackTree.MakeTable | managed_components/espressif__nghttp/nghttp2/mkhufftbl.py:411-467 | From any complete prefix code of 257 words, of four bits or more, with only ones for EOS, comes the table of the automaton. |
| HpackTree.DecodeString | managed_components/espressif__nghttp/nghttp2/lib/nghttp2_hd_huffman.c:110-142 | The generated automaton accepts a string exactly if it is encoded symbols and padding, and gives exactly these symbols. |
| Jsmn.Parser.Parse | managed_components/espressif__jsmn/include/jsmn.h:272-458 | The parse in place, with its token array and positions, goes as the specification on values goes, for any text, array and earlier state, errors included. |
| Jsmn.Parser.ScanPrimitive | managed_components/espressif__jsmn/include/jsmn.h:137-191 | The end of a primitive, or the error, is found, and the position stays after an error. |
| Jsmn.Parser.ScanString | managed_components/espressif__jsmn/include/jsmn.h:196-267 | The end of a string with its escapes, or the error, is found, and the position stays after an error. |
| Jsmn.Resume | managed_components/espressif__jsmn/include/jsmn.h:106-119 | A run that stopped for lack of tokens and goes on with a larger array ends as one run with the larger array does. |
| Jsmn.LargerIsSame | managed_components/espressif__jsmn/include/jsmn.h:106-119 | A larger array changes nothing for a run that did not lack tokens. |
| Jsmn.ParseSucceeds | managed_components/espressif__jsmn/include/jsmn.h:272-458 | A parse succeeds exactly if the brackets match and there is room for as many tokens as the count-only mode counts, and then returns that count. |
| Jsmn.CountIsBlind | managed_components/espressif__jsmn/include/jsmn.h:313-317 | The count-only mode accepts a closing bracket without a match, which a parse refuses. |
| Jsmn.TokensNest | managed_components/espressif__jsmn/include/jsmn.h:284-365 | Wherever a run stops, tokens lie at their text and any two of them nest or are apart; after a success every container is closed at a matching bracket. |
| JsmnSizes.RunIsExact | managed_components/espressif__jsmn/include/jsmn.h:272-458 | Wherever a run stops, the size of every token is the number of later tokens that it holds, where the holder of a token is told by the text and the ranges alone: the container around it, or the token before a colon, until a comma. |
| JsmnSizes.ArraySizes | managed_components/espressif__jsmn/include/jsmn.h:286-312 | The size of a container without keys, an array in particular, is the number of tokens that stand directly in it. |
| JsmnSizes.OnePair | managed_components/espressif__jsmn/include/jsmn.h:272-458 | The tokens of an object of one pair, with their ranges and sizes. |
| JsmnSizes.PrimitiveRange | managed_components/espressif__jsmn/include/jsmn.h:137-191 | A primitive goes on through printable characters up to a separator or the end of the text, and is an error exactly at any other character. |
| JsmnSizes.Escapes | managed_components/espressif__jsmn/include/jsmn.h:196-267 | Examples of escapes in strings: good ones, unknown ones, bad digits, and a string without an end. |

## Left out

What the theorems assume or do not say:

- Blocks.ReadBlock: asks that the decoding tables of a dynamic block fit in the space that `inftrees.h` sets aside (`Readable`); that 852 and 592 entries are enough for every code is the result of an exhaustive search, which is not repeated here. All round trips through dynamic blocks (`AllReadable`) carry this condition and no other.
- RoundTrip.PartialFlushIsDecodable: asks for a session that has come to an end, because the bits of the mark that are still held keep the decoder from a fixed amount of output room that would be enough.
- Trees.CompressBlock: takes the symbols from a buffer of its own. That they may share the pending buffer is proved for static blocks (`Trees.CompressOverlay`); for dynamic blocks the argument in `deflate.c` is an average over the block and does not bound every step.
- TreeBuild.Builder.BuildTree: frequencies, depths and the two estimates are unbounded numbers; a block has fewer than 32768 tokens, so the 16-bit frequencies do not wrap, and the depths follow from `Depths.DepthTakes`.
- TreeBuild.Builder.GenBitLen: does not say that lengths that had to be limited are the cheapest limited ones; the repair does not promise that.
- Compress.DeflateSlow: says which input the tokens stand for and not which of several right tokens are chosen, as `Compress.DeflateFast` does; what the search finds is said by `Lz77.Matcher.LongestMatch`, and what the strategy Z_FILTERED leaves out is not stated.
- FormatLaws.StoredLengths: is about the lengths alone; that every stream which is decoded to its end consists of legal blocks is not stated for all three forms, since a header of another implementation may use other repeats than `send_tree` does.
- Deflate.Deflate: the `matches` field, which only tells `deflateParams` whether the hash is to be cleared, the totals, the check value and `data_type` are not modelled.
- Inflate.Inflate: window bits 15, flush Z_NO_FLUSH and a raw stream; `back` and `was` (for `inflateMark`) are not modelled.
- InfState.InflateState.FixedTables: the tables are built by `inflate_table`, as with BUILDFIXED; the numbers of `inffixed.h` are not compared with them.
- Crc32.Crc32Z: for N = 5 braids of W = 4 bytes, with the tables made at run time; the numbers of `crc32.h` are not compared, except that the 32 powers of `x2n_table` are derived for `Crc32.PowersRepeat`. The words are 32 bits; the upper half of a 64-bit unsigned long is not modelled.
- Crc32.Combine: asks for a length that is not negative.
- Hpack.HuffDecode: works on any code that is `Good`; that the 257 words of `mkhufftbl.py` are such a code is not checked.
- HpackTree.PrintRows: gives the rows as values and not as the text of a C program.
- JsmnSizes.Escapes: examples only; which strings are accepted is said by `Jsmn.StringEnd`, without a second definition.
- Adler32.Adler32Z: the variant with division (without NO_DIVIDE).

What is not modelled:

- The gzip and zlib wrappers (headers, trailers, dictionary ids) of `deflate` and `inflate`, `gzlib.c`, `gzread.c`, `gzwrite.c`, `compress.c`, `uncompr.c`: field plumbing and loops around the calls modelled here.
- `infback.c`: the same decoder with a different way to get input.
- `deflatePrime`, `deflateParams`, `deflateTune`, `deflateSetDictionary`, `deflateCopy`, `inflatePrime`, `inflateSetDictionary`, `inflateSync`, `inflateUndermine`: entries from the side that break the invariants; no run here uses them.
- `deflateBound`, `compressBound`: bounds of their own; `Deflate.OutputBound` is a coarser one.
- Build variants: FASTEST, LIT_MEM, UNALIGNED_OK, ARMCRC32, NO_DIVIDE, 16-bit targets, JSMN_STRICT, JSMN_PARENT_LINKS, INFLATE_STRICT, INFLATE_ALLOW_INVALID_DISTANCE_TOOFAR_ARRR.
- Allocation and its failure, debug tracing, the once-only guard of the CRC tables, code generators that print C.
- The HPACK encoder in C and the rest of nghttp2.
- The application, its drivers and its build scripts.
