# Verified model of podrum's compression, transport and storage

This project models the parts of podrum, a Minecraft server, whose correctness no single
function shows, and proves properties of them with Dafny:

* **Compression** (`miniz/miniz.c`, RFC 1950 and RFC 1951). Match finder, lazy parser, packed
  token buffer, Huffman codes, block writer and stream are classes over arrays, as is the
  decompressor. The main results are that any sequence of calls, flushed in any way and put out into
  buffers of any sizes, gives a stream that decompresses to the input, and that the decompressor does
  on any input what a bitwise definition says, which for data that keeps to the format succeeds on
  well-formed streams and on nothing else. Along the way: the Huffman lengths are optimal, the table
  builder accepts exactly the usable codes, the match finder misses nothing its budget covers, and the
  output buffer of a flush never runs full.
* **RakNet** (`podrum/network/raknet`). Sender, receiver and frame holder are state machines over a
  network that loses, reorders and duplicates. The main results are that no frame is forgotten,
  that a payload comes back at the other end exactly when its last fragment arrives, and what is
  acknowledged and asked for over any run.
* **Region store** (`podrum/world/format/anvil/region.c`). A sector allocator over one byte buffer,
  proved to be a map from chunk positions to data over any run of stores and reopenings.
* **NBT and chunks** (`cnbt`, `cbinarystream`, `podrum/world/chunk`,
  `podrum/network/minecraft/mcmisc.c`). Round trips in all encodings, and palette storage as a map.

Verify everything with `dafny verify --resource-limit 2000000 --verification-time-limit 0 dfyconfig.toml`.

## What turned out false

* *A reported set is sent again.* Not set 0: its number also stands for "no such set", and it is
  dropped (`RakHandlers.FirstSetIsLost`). Frames are lost if and only if set 0 is reported
  (`RakSenders.Sender.HandleNack`). This implementation never reports it
  (`RakArrivals.ZeroNeverAsked`), so between two of its ends nothing is lost
  (`RakReceivers.HandlePackets`).
* *A report makes as many sets go out again as it names.* Not if it names a number that is handed out
  while the report is handled: that set goes out twice (`RakSenders.Sender.HandleNack` has the exact
  condition).
* *Whatever is decompressed without an error is a DEFLATE stream.* Bits that are no code are taken for
  symbol 0 (`Strays.OtherBit`), symbols without a meaning for an empty match
  (`Strays.ReservedAccepted`), and skipped bits may be anything. Without these, and with as many codes
  and no longer matches than RFC 1951 has, it is (`Conforming.StreamExact`).
* *Missing sets are asked for, and only they.* The loop starts one past the first missing number, so
  a gap of one is never asked for (`RakArrivals.OneMissing`); an old set moves the expected number
  back, so sets that are there are asked for again (`RakArrivals.AskedThoughReceived`). Which sets
  are asked for is `RakArrivals.AskedExactly`; for sets in order all missing ones are asked for only
  if none is missing (`RakArrivals.AskedAllIffNoGap`).
* *The compressed block may not fit the output buffer.* It always does; the second try with fixed
  codes is dead code (`BlockFlush.WriteBlock`).
* *Reopening a region keeps its timestamps.* Only up to 2^31 - 1 (`RegionStores.TimestampsKept`).
* *Opening pads a file to whole sectors.* Only if it is a whole number of half sectors
  (`RegionStores.PaddedWhole`). Chunks are kept all the same (`RegionRuns.Run`).

## Files

* Bits and tokens: `Sequences`, `Bits`, `BitIO`, `Lz`, `Symbols`, `TokenBuffer`, `Blocks`, `BlockWriter`.
* Parsing: `Window`, `Chain`, `Dictionary`, `Compressor`.
* Codes: `Canonical`, `Completeness`, `RadixSort`, `HuffmanTree`, `HuffmanOptimal`, `HuffmanCost`,
  `MinRedundancy`, `LengthLimit`, `LengthCounts`, `Gathering`, `LimitCost`, `CodeCost`, `CodeTable`.
* Blocks and streams: `CodeLengths`, `DynamicHeader`, `FixedBlock`, `BlockSize`, `BlockFlush`,
  `StreamEnd`, `StreamGrowth`, `Adler32`, `Sink`, `Deflater`.
* Decompression bit by bit: `Decoding`, `Usual`, `Readback`, `Stream`, `Conforming`, `Strays`; and as the
  source does it: `Trie`, `TreeBound`, `HuffTable`, `HuffDecode`, `TableRead`, `StoredRead`, `Inflate`,
  `StreamRead`. `RoundTrip` has both directions together, `Formats` the numbers of the format.
* RakNet: `RakFrame`, `Acks`, `RakSender`, `RakHolder`, `Reassembly`, `RakConnection`, `RakHandler`,
  `RakArrivals`, `RakReceiver`, `RakNetwork`.
* Region: `RegionLayout`, `FreeMap`, `RegionSteps`, `RegionStore`, `RegionRuns`.
* NBT and chunks: `BinaryStream`, `NbtNumbers`, `Nbt`, `NbtRead`, `BlockStorage`, `BlockPacking`, `Chunk`.

## Model

| member | source | states |
|---|---|---|
| RoundTrips.RoundTrip | miniz/miniz.c:1896-1962 | For every sequence of calls with any flushes, any settings, zlib wrapper or not, with an output function or with buffers of any sizes, and anything behind the stream: finishing comes to an end, and decompressing gives back exactly the input taken and consumes exactly the stream. With an output function all input is taken. |
| RoundTrips.RoundTripOfCalls | miniz/miniz.c:1896-1962 | The same for calls that finish, or are refused, anywhere: once a call has returned DONE. |
| RoundTrips.CompressAll | miniz/miniz.c:1896-1962 | Once a call has returned DONE, what was put out is one whole stream whose blocks expand to the input taken. With an output function every call returns OKAY, DONE for the first finishing one, and BAD_PARAM behind it, and all input is taken. |
| RoundTrips.FinishAll | miniz/miniz.c:242-298 | Repeating the finishing call with a buffer of at least one byte always comes to an end, with everything handed out. |
| RoundTrips.FinishedStream | miniz/miniz.c:1315-1335 | A finished compressor's output is its blocks' bits, padded to a byte, with the Adler-32 of all input if there is a zlib wrapper. |
| Deflaters.Deflater.Compress | miniz/miniz.c:1896-1962 | One call keeps the invariant of all runs: what was handed out and what is kept, plus the unfinished byte, are bit for bit the stream of the blocks so far, which expand to a prefix of the input taken. What was kept goes out before new input is taken, and something is kept only when the buffer is full. A flushing call that leaves nothing over covers all input and, unless it finishes, ends with an empty stored block on a byte boundary for a sync or full flush; only a full flush forgets the dictionary; a refused call changes nothing; a finishing call with room gets on. |
| Sinks.Sink.Give | miniz/miniz.c:1360-1384 | What a flush writes goes to the output function, or into the buffer as far as it fits; the rest is kept. |
| Sinks.Sink.Drain | miniz/miniz.c:1875-1894 | What was kept goes into the buffer as far as it fits, in order and nothing twice. |
| Deflaters.Deflater.CompressNormal | miniz/miniz.c:1730-1873 | All input of the call is taken, and parsed when flushing, unless a flush fills the buffer; then the rest is left to the caller. The parser's and the stream's invariants hold throughout, including the flushes in between. |
| Deflaters.Deflater.FlushBlock | miniz/miniz.c:1253-1386 | Everything recorded moves into the stream's blocks, whatever block type is chosen and whatever flush is asked for, and the token buffer is empty again. |
| Deflaters.Deflater.Step | miniz/miniz.c:1784-1873 | One step of the parser, and a flush behind it if and only if the recorded tokens come within 8 bytes of the end of their buffer, or stand for more than 31 KB and compress badly or are to be stored. |
| Deflaters.EmitBlock | miniz/miniz.c:1253-1348 | The bits of header, block and tail are what the format asks for, and the output buffer is never full behind them: the assertion at the end of the source's function cannot fail. |
| Deflaters.FlushExtends | miniz/miniz.c:1271-1346 | The bits of one flush continue the stream to the stream with one more block, with the empty block of a sync flush, or with padding and checksum. |
| Deflaters.RawCovers | miniz/miniz.c:1257-1287 | If the 32-bit difference of positions says the dictionary reaches back to the start of the block, the ring still holds exactly the block's bytes. |
| BlockFlush.WriteBlock | miniz/miniz.c:1279-1313 | Which block is written is determined: stored bytes if asked for; otherwise codes, the fixed ones for less than 48 bytes or if asked for and else codes made for the tokens, unless the dictionary still covers the data and the codes take no fewer whole bytes than it. The second try the source keeps for an overflow is never made. |
| Dictionaries.Dictionary.FindMatch | miniz/miniz.c:1459-1501 | Whatever the hash chains hold: the match is the best one, the first of several, among the candidates tried. They are tried along the chain until it ends at a zero entry or beyond the dictionary, a match as long as the lookahead is found, or the rounds are used up, three probes each; passed over is only a candidate that cannot be longer. |
| Dictionaries.Dictionary.NextCandidate | miniz/miniz.c:1468-1485 | Follows the chain link by link and skips exactly the candidates whose last two bytes do not agree; a round of the budget is spent for every three; without a candidate the chain has ended or the budget is used up. |
| Dictionaries.Dictionary.NearestTried | miniz/miniz.c:1459-1501 | The nearest earlier positions whose next three bytes have the same hash are tried, at least as many as there are rounds less one, and nothing that repeats from there is longer than the match found. |
| Chains.ChainLeads | miniz/miniz.c:1739-1779 | Following the links from a position meets exactly the earlier positions with the same hash, nearest first, down to the last full flush. |
| Chains.LinkStep | miniz/miniz.c:1755-1756 | Entering a position into its chain keeps all chains, also when a slot of the ring is used again. |
| Chains.BestLongest | miniz/miniz.c:1487-1494 | The best of some candidates is as long as every repetition from one of them. |
| Chains.HashMeaning | miniz/miniz.c:1774-1774 | The hash is three bytes, five bits apart, over each other. |
| Dictionaries.Dictionary.CommonLength | miniz/miniz.c:1487-1491 | The length returned is the common prefix of the two places, no shorter and no longer up to the bound. |
| Dictionaries.Dictionary.RunLength | miniz/miniz.c:1791-1806 | In RLE mode the length is exactly that of the run of the previous byte, and there is no match below 3. |
| Dictionaries.Dictionary.Fill | miniz/miniz.c:1739-1780 | The lookahead takes input until it is full or the input ends; ring and mirror hold the latest source bytes. |
| Window.ReadThrough | miniz/miniz.c:1459-1501 | Reading on from a ring slot past the end of the ring, through the mirrored bytes, gives the source bytes. |
| Window.WriteCovers | miniz/miniz.c:1739-1780 | One more byte in the ring and in the mirror keeps every position not overwritten. |
| Window.ProbeSlot | miniz/miniz.c:1474-1479 | A 16-bit difference taken from a 32-bit position counter reaches the probed slot. |
| Window.MatchRepeats | miniz/miniz.c:1487-1494 | Equal bytes in ring and mirror are a repetition in the source, across the wrap too. |
| Compressors.Compressor.ParseStep | miniz/miniz.c:1784-1857 | Whatever the chains hold, after every step the tokens recorded since the start of the stream expand to exactly the source up to the current position, less one while a match is pending. Which match is considered and what is recorded is determined, and how far the step moves. |
| Compressors.Compressor.ChooseMatch | miniz/miniz.c:1786-1814 | The run of the previous byte, nothing, or the match found, as the mode has it; dropped only if it has length 3 from 8192 bytes back or more, if its distance is the position in the ring, or if short ones are filtered. |
| Compressors.Compressor.DecidePending | miniz/miniz.c:1815-1839 | A pending match is used, or gives way to a longer one after a literal, or after a literal at once to one of at least 128 bytes. |
| Compressors.Compressor.DecideFresh | miniz/miniz.c:1840-1852 | A literal, a match used at once, or a new pending match, depending on length and mode. |
| Lz.CopyRepeats | miniz/miniz.c:2709-2793 | Copying back from a source prefix gives the longer source prefix if and only if the source repeats itself at that distance; overlap included. |
| TokenBuffers.TokenBuffer.RecordLiteral | miniz/miniz.c:1689-1700 | The packed buffer, its flag bytes and the symbol counters stand for one more literal; at most two bytes are used. |
| TokenBuffers.TokenBuffer.RecordMatch | miniz/miniz.c:1702-1728 | The same for a match, with its length and its distance; at most four bytes. |
| TokenBuffers.TokenBuffer.Align | miniz/miniz.c:1268-1269 | With the last flag byte shifted down, the packed buffer can be read back as exactly the recorded tokens. |
| BlockWriters.NextToken | miniz/miniz.c:1204-1212 | Reading the flag register, refilled at its sentinel, finds token i and its kind. |
| BlockWriters.CompressLzCodes | miniz/miniz.c:1196-1241 | What is written is the bits of all recorded tokens and the end of the block. |
| BitIO.BitWriter.PutBits | miniz/miniz.c:924-940 | The bits are appended to what was written; the 32-bit accumulator never overflows. |
| BitIO.BitReader.GetBits | miniz/miniz.c:2304-2334 | The next n bits as a number, and only they are consumed; fails only when the input is too short. |
| Symbols.LengthCodeRoundTrip | miniz/miniz.c:686-704 | For all 256 lengths the decoder's base and extra-bit tables undo the encoder's symbol table. |
| Symbols.DistCodeRoundTrip | miniz/miniz.c:706-749 | The same for all 32768 distances, small and large tables. |
| RadixSort.Sort | miniz/miniz.c:753-784 | The result is a stable ascending sort of the symbols by count and a permutation of them, also when the second pass is skipped. |
| RadixSort.CountingPass | miniz/miniz.c:765-781 | One pass puts every element where the stable order by its digit has it. |
| MinRedundancy.CalculateMinimumRedundancy | miniz/miniz.c:787-840 | In place, on ascending counts: the lengths have Kraft sum exactly 1, rarer symbols get no shorter ones, no lengths with Kraft sum at most 1 cost less, and a code of length n belongs to a count below the total over a Fibonacci number of n. |
| MinRedundancy.BuildTree | miniz/miniz.c:797-816 | The first pass leaves the parents of a Huffman tree in the array, and no prefix code costs less than its nodes weigh together. |
| MinRedundancy.TreeDepths | miniz/miniz.c:817-819 | Parents become depths. |
| MinRedundancy.LeafLengths | miniz/miniz.c:820-839 | Depths become leaf lengths that cost what the nodes weigh. |
| HuffmanOptimal.GreedyStep | miniz/miniz.c:797-816 | A lower bound for the bag with the two lightest weights merged gives one for the bag itself: the greedy choice is optimal against every prefix code. |
| HuffmanTree.WeightsGrow | miniz/miniz.c:797-819 | Weights grow like Fibonacci numbers towards the root. |
| HuffmanTree.DepthBound | miniz/miniz.c:787-840 | Counts below 2^16 in total never give a depth above 23, so 32 length counters are enough. |
| LengthLimit.EnforceMaxCodeSize | miniz/miniz.c:847-869 | Limiting keeps the number of codes, ends with Kraft sum exactly 1 at the limit, always finds a shorter code to split and never drives a counter negative. |
| LengthLimit.CanSplit | miniz/miniz.c:861-867 | While the Kraft sum is too large there is a code of the limit length and a shorter one. |
| LengthLimit.FoldStarts | miniz/miniz.c:855-860 | Folding the long codes into the limit leaves a Kraft sum of at least 1. |
| LimitCost.LimitingCost | miniz/miniz.c:847-869 | Limiting lengths to 15 bits costs at most 2/569 of the total weight per symbol. |
| CodeCosts.LimitedCheap | miniz/miniz.c:847-905 | The limited lengths cost at most 2/569 of the total weight per used symbol more than any code of at most 15 bits for all symbols. |
| CodeTables.CodeTable.Optimize | miniz/miniz.c:871-922 | Exactly the used symbols get lengths, a complete code within the limit, no longer for more frequent symbols, and hardly dearer than any other code; every code is its canonical code reversed. |
| CodeTables.CodeTable.HandOut | miniz/miniz.c:900-904 | As many symbols get each length as its counter says, the most frequent ones the shortest. |
| CodeTables.CodeTable.AssignCodes | miniz/miniz.c:907-921 | Codes are the canonical ones of RFC 1951, section 3.2.2, bit-reversed. |
| Canonical.PrefixFree | miniz/miniz.c:2535-2565 | No canonical code is a prefix of another one when the Kraft sum is at most 1. |
| Canonical.ReverseCode | miniz/miniz.c:918-920 | The reversed code, sent least significant bit first, is the code with its most significant bit first. |
| Completeness.CodeEndIsKraftSum | miniz/miniz.c:2541-2554 | The running total of the table builder is the Kraft sum. |
| Completeness.CompleteIsKraftOne | miniz/miniz.c:2541-2554 | A code is complete exactly when its Kraft sum is 1. |
| Completeness.ExactlyOneCode | miniz/miniz.c:2541-2554 | With a complete code every bit string starts with exactly one code. |
| CodeLengths.Packer.Pack | miniz/miniz.c:942-986 | The operations are run by run those of the source: zeros by 138, a length and repeats by 6, and up to two left over singly. Expanding them as the decoder does gives the lengths back, and the packed form is no longer than they are. |
| CodeLengths.PackedFits | miniz/miniz.c:1008-1050 | Every operation takes no more bytes than the lengths it stands for. |
| DynamicHeaders.StartDynamicBlock | miniz/miniz.c:990-1075 | Block type and header are sent for codes that the decoder accepts and that have a code for every token and the end of the block; they are made for the tokens' counts, cut behind the last length, packed and sent through a code made for the packed operations. |
| DynamicHeaders.ChooseCodes | miniz/miniz.c:990-1006 | The two codes are made for the tokens, hardly dearer than any other, trimmed behind the last used symbol, and the body they give is short. |
| DynamicHeaders.HeaderShort | miniz/miniz.c:1052-1074 | A header takes at most 4600 bits. |
| BlockSizes.TokensLength | miniz/miniz.c:1196-1241 | The length of a body is the cost of the counted symbols plus the extra bits. |
| BlockSizes.FixedFits | miniz/miniz.c:1858-1867 | Whatever the token buffer holds is at most 674490 bits long with the fixed codes. |
| BlockSizes.CheapFits | miniz/miniz.c:1244-1251 | So it is with the codes the compressor chooses. |
| FixedBlocks.StartStaticBlock | miniz/miniz.c:1077-1097 | Both tables write the fixed codes of RFC 1951, section 3.2.6. |
| FixedBlocks.FixedComplete | miniz/miniz.c:2503-2518 | Both fixed codes are complete, so the decoder accepts them. |
| FixedBlocks.PutStoredBlock | miniz/miniz.c:1288-1306 | A stored block holds exactly the block's bytes, read from the ring, with both length words. |
| StreamEnds.PutTail | miniz/miniz.c:1315-1346 | Behind a block: nothing, padding and checksum, or an empty stored block. |
| Adlers.ComputeAdler | miniz/miniz.c:40-66 | Sums reduced once per 5552 bytes and taken eight at a time are the byte-by-byte checksum of RFC 1950, section 8.2, and no sum leaves 32 bits. |
| Adlers.NoOverflow | miniz/miniz.c:40-66 | The unreduced sums of a block fit 32 bits, for an unreduced start too if the block is not full. |
| Adlers.AdlerCompose | miniz/miniz.c:2845-2873 | Continuing a checksum gives the checksum of the whole. |
| HuffTables.HuffTable.Build | miniz/miniz.c:2535-2596 | The table is accepted if and only if the Kraft sum is 1 or at most one symbol is used; then look-up array and tree hold the code, all tree indices in bounds. |
| HuffTables.HuffTable.Decode | miniz/miniz.c:2371-2403 | Any bits at all: the symbol whose code starts them and its length; without one symbol 0 and the bits that followed a long code, or none. The tree is never left. |
| HuffTables.HuffTable.TryDecode | miniz/miniz.c:2340-2363 | Whether the buffered bits are enough is told exactly, for every code they can still start with and for bits that are no code, so no byte is read too early. |
| TreeBound.CompleteNodes | miniz/miniz.c:2575-2593 | A complete code needs no more tree nodes than it has symbols. |
| HuffDecoders.HuffDecode | miniz/miniz.c:2371-2403 | Any input: the next symbol that the bits ahead stand for, whatever of them is buffered; fails exactly when they are too few. |
| TableReaders.ReadLengths | miniz/miniz.c:2597-2624 | Any input: the lengths that the operations ahead give one by one, or the error met first: the input ends, a repeat of nothing, an operation beyond the last length. |
| TableReaders.ReadDynamicTables | miniz/miniz.c:2519-2624 | Any input: tables of exactly the two codes that the header ahead announces, or the error met first. |
| TableReaders.BuildFixedTables | miniz/miniz.c:2503-2518 | The tables of the fixed codes. |
| Inflaters.Inflater.DecodeLiterals | miniz/miniz.c:2626-2707 | Any input: the fast path, two symbols from one refill, and the careful path turn out as reading symbol by symbol does, with the same output, up to the first symbol that is no literal or the same error. |
| Inflaters.Inflater.ReadMatch | miniz/miniz.c:2709-2735 | Any input: length and distance as symbols and extra bits ahead have them, or the input ends. |
| Inflaters.CopyMatch | miniz/miniz.c:2778-2793 | Copying three bytes at a time is the byte-by-byte copy, also when the distance is shorter than the match. |
| Inflaters.Inflater.PutMatch | miniz/miniz.c:2736-2793 | A match that fits is copied, one too long fills the buffer, and one from beyond the output is an error that changes nothing. |
| Inflaters.Inflater.DecodeTokens | miniz/miniz.c:2626-2795 | Any input: outcome, output and bits used are those of decoding token by token. |
| Inflaters.Inflater.DecodeStored | miniz/miniz.c:2455-2496 | Any input: outcome, output and bits used are those of a stored block copied byte by byte: length and complement checked, a full buffer noticed before the end of the input. |
| Inflaters.Inflater.DecodeBlock | miniz/miniz.c:2451-2795 | Any input: outcome, output, bits used and final flag are those of the block ahead; a block that succeeds uses bits, so decoding ends. |
| StreamReaders.DecodeBlocks | miniz/miniz.c:2451-2796 | Any input: outcome, output and bits used are those of the blocks up to the final one. |
| StreamReaders.PutBack | miniz/miniz.c:2798-2807 | The whole bytes read ahead are given back, and no bit is left over: the assertion behind it cannot fail. |
| StreamReaders.ReadZlibHeader | miniz/miniz.c:2437-2447 | For any two bytes ahead: accepted if and only if they are a multiple of 31, name deflate and no preset dictionary; exactly these two bytes are used, and fewer are the end of the input. |
| StreamReaders.Decompress | miniz/miniz.c:2405-2875 | Any input, any size of the buffer, with or without zlib wrapper: outcome, output and bytes used are those of the bitwise definition, which knows no bit buffer, tables or fast path. |
| Streams.StreamRead | miniz/miniz.c:2405-2875 | Every well-formed stream, behind any header that fits and with anything behind it, is decompressed as what its blocks expand to, and exactly its bytes are used. |
| Conforming.StreamExact | miniz/miniz.c:2405-2875 | Decompressing succeeds on data that keeps to the format if and only if a well-formed stream stands at its front and its output fits the buffer. |
| Conforming.StreamMeant | miniz/miniz.c:2405-2875 | Header, blocks, checksum and the bytes behind them are found again from any success on data that keeps to the format. |
| Conforming.TokensMeant | miniz/miniz.c:2626-2795 | So are the tokens of a block, and the output is what they expand to. |
| Conforming.CodesMeant | miniz/miniz.c:2519-2624 | So is the header of a dynamic block, with its packed operations. |
| Conforming.LengthMeant | miniz/miniz.c:2407-2408 | A length symbol and its extra bits stand for one length that no other symbol has, except that 258 could be had from two. |
| Readbacks.TokensRead | miniz/miniz.c:2626-2795 | Every list of tokens is read back from its bits in any two codes that are accepted, and puts out what it expands to. |
| Readbacks.CodesRead | miniz/miniz.c:2519-2624 | Every header is read back as the two codes it was sent for. |
| Strays.CompleteNeverStrays | miniz/miniz.c:2340-2403 | With a complete code a symbol is read if and only if its code is ahead; anything else comes from a code of one symbol or none. |
| Strays.OtherBit | miniz/miniz.c:2340-2403 | In a code of a single symbol the bit that is no code is read as symbol 0 and not used up. |
| Strays.ReservedAccepted | miniz/miniz.c:2712-2713 | Length symbol 286 is accepted as a match of no bytes, in data that is no well-formed stream. |
| Formats.BlockStart | miniz/miniz.c:2453-2454 | A block starts with its final bit and two type bits, low bit first: 0 stored, 1 fixed, 2 dynamic. |
| Formats.StoredLayout | miniz/miniz.c:2456-2468 | A stored block is its length, low byte first, the complement, and the data. |
| Formats.HeaderCounts | miniz/miniz.c:2520-2525 | A dynamic block starts with 5, 5 and 4 bits, its counts less 257, 1 and 4. |
| Formats.SendingOrder | miniz/miniz.c:988-988 | The code-length code is sent for 16, 17, 18 and 0, and then outwards from 8. |
| Formats.LengthSymbols | miniz/miniz.c:2602-2618 | Lengths, 3 to 6 copies, 3 to 10 zeros and 11 to 138 zeros, with 2, 3 and 7 extra bits. |
| Formats.LengthTable | miniz/miniz.c:2407-2408 | The length symbols: four to each number of extra bits, every base behind the one before. |
| Formats.DistTable | miniz/miniz.c:2409-2410 | The distance symbols likewise, two to each. |
| Formats.CanonicalOrder | miniz/miniz.c:2541-2565 | Shorter codes come first, and among equally long ones those of smaller symbols. |
| Formats.FixedCodes | miniz/miniz.c:2503-2518 | The fixed codes, bit for bit as in section 3.2.6 of RFC 1951. |
| Formats.AdlerMeaning | miniz/miniz.c:40-66 | One more than the sum of the bytes, and the sum of these sums, modulo 65521. |
| Formats.ChecksumOrder | miniz/miniz.c:2810-2818 | The checksum has its most significant byte first. |
| Formats.UsualHeaders | miniz/miniz.c:2442-2442 | The headers zlib writes at its four levels are accepted, others are not. |
| Formats.OwnHeaderBytes | miniz/miniz.c:1271-1276 | This compressor writes 78 01. |
| Formats.SampleDecompressed | miniz/miniz.c:2405-2875 | Ten times the letter a, as zlib compresses it at its default level, is decompressed. |
| BinaryStreams.LeRoundTrip | cbinarystream/binary_stream.c:33-187 | Little-endian numbers of any width are read back. |
| BinaryStreams.BeRoundTrip | cbinarystream/binary_stream.c:42-187 | Big-endian numbers of any width are read back. |
| BinaryStreams.BinaryStream.PutVar | cbinarystream/binary_stream.c:431-472 | Seven-bit groups, low ones first, never more than the width allows. |
| BinaryStreams.BinaryStream.GetVar | cbinarystream/binary_stream.c:189-221 | Reads back what was put, 32 or 64 bits wide, and stops behind it. |
| NbtNumbers.ZigZagBijection | cbinarystream/binary_stream.c:203-227 | Zigzag is a bijection between the signed and the unsigned numbers of a width. |
| NbtNumbers.NetworkForm | cbinarystream/binary_stream.c:450-477 | The groups of a signed number spell twice the number, or one less than twice its absolute value, in at most 5 or 10 bytes. |
| NbtNumbers.IntForm | cbinarystream/binary_stream.c:356-377 | Otherwise a number is its two's complement, byte by byte in one order or the other. |
| RakFrames.FrameSizeExact | podrum/network/raknet/rakmisc.c:115-175 | The size reckoned for a frame is what writing it takes. |
| RakFrames.FrameLayout | podrum/network/raknet/rakmisc.c:115-175 | A frame byte by byte: flags, length in bits, then for each kind from 0 to 7 its reliable, sequenced and ordered index and channel, the place in the compound, and the data. |
| RakFrames.FrameSetLayout | podrum/network/raknet/rakpacket.c:313-321 | A frame set is 80, its number in three bytes, low byte first, and its frames. |
| RakFrames.GetFrame | podrum/network/raknet/rakmisc.c:53-83 | A frame is read back in all fields that its reliability and fragmentation send. |
| RakFrames.GetFrameSet | podrum/network/raknet/rakpacket.c:114-128 | Reading until the packet ends gives back exactly the frames put into it. |
| RakFrames.FrameSetSize | podrum/network/raknet/rakpacket.c:313-321 | A frame set takes four bytes and what its frames take. |
| Acks.ExchangeSort | podrum/network/raknet/rakpacket.c:257-269 | The in-place exchange sort gives an ascending permutation. |
| Acks.RunsExpand | podrum/network/raknet/rakpacket.c:275-306 | The runs written are maximal and stand for exactly the distinct numbers. |
| Acks.PutAcknowledge | podrum/network/raknet/rakpacket.c:255-311 | The packet is the record count and one record per run. |
| Acks.AckLayout | podrum/network/raknet/rakpacket.c:255-311 | Acknowledgements are C0 and reports A0, with the count high byte first; a record is 1 and a number, or 0, the first and the last. |
| Acks.GetAcknowledge | podrum/network/raknet/rakpacket.c:83-112 | Reading gives the numbers of the runs. |
| Acks.AckRoundTrip | podrum/network/raknet/rakpacket.c:83-112 | Encoding and decoding a list of numbers gives its distinct members in ascending order. |
| RakSenders.Sender.AppendFrame | podrum/network/raknet/rakserver.c:374-390 | In every reachable state each frame ever given is in the queue, in recovery, acknowledged, or lost with frame set 0, as multisets; what goes out first and what waits is determined. |
| RakSenders.Sender.SendQueue | podrum/network/raknet/rakserver.c:355-372 | The waiting frames go out as one set under a fresh number and stay in recovery. |
| RakSenders.FreshNumber | podrum/network/raknet/rakserver.c:199-206 | The next number is new, so the guarded append never drops a set. |
| RakSenders.SentBounds | podrum/network/raknet/rakserver.c:374-390 | Every datagram of every run is at most the MTU less 36 bytes, or less 33 for a single fragment of a reliable sequenced frame. |
| RakSenders.Sender.HandleAck | podrum/network/raknet/rakserver.c:208-230 | The recovery queue loses exactly the sets acknowledged. |
| RakSenders.Sender.Resend | podrum/network/raknet/rakhandler.c:115-136 | A missing set goes out again under a fresh number with the same frames and is kept under that number; a number that is not there changes nothing; set 0 is dropped. |
| RakSenders.Sender.HandleNack | podrum/network/raknet/rakhandler.c:115-136 | Over a whole report: every set named is gone from recovery, its frames stand there under a fresh number and went out as a datagram of that number, what is not named stays, and the counter and the datagrams grow alike: by the number of sets named, if and only if the report names no number handed out while it is handled. Frames are lost if and only if 0 is named. |
| RakHandlers.HandleAckPacket | podrum/network/raknet/rakhandler.c:105-113 | From the bytes of the packet: exactly the named sets are forgotten. |
| RakHandlers.HandleNackPacket | podrum/network/raknet/rakhandler.c:115-136 | From the bytes of the packet: every set reported is sent again under a fresh number, the others stay, and only set 0 can be lost; order and repetition in the report do not matter. |
| RakHandlers.Acknowledge | podrum/network/raknet/rakpacket.c:255-311 | End to end: what one side acknowledges, in any order with repetitions, is what the other side forgets. |
| RakHandlers.FirstSetIsLost | podrum/network/raknet/rakhandler.c:119-121 | The exception: the very first set, reported missing, is gone for good. |
| RakConnections.Connection.AddToQueue | podrum/network/raknet/rakserver.c:392-443 | A payload is given to the queue whole, or as all its fragments sent at once, with the indices its reliability asks for. The reliable counter moves on for kinds 2, 3, 4, 6 and 7 only, once for every frame, the sequence counter of the channel for 1 and 4, its order counter for 3 and 7; reliable frames go out numbered from 0 on without gaps. |
| RakConnections.Connection.SendFragments | podrum/network/raknet/rakserver.c:402-435 | All fragments of a payload go out, each within the datagram bound. |
| RakConnections.FragmentsAreCompound | podrum/network/raknet/rakserver.c:402-435 | The fragments are numbered from 0 and joined they are the payload. |
| RakConnections.LastPiece | podrum/network/raknet/rakserver.c:402-435 | All fragments but the last one are full, and the last one is what is left over: nothing behind an exact multiple. |
| RakConnections.Deliver | podrum/network/raknet/rakhandler.c:140-157 | Fragments of any payload, as read from their bytes, arriving in any order with duplicates among other compounds: nothing is delivered while one is missing, and exactly the payload when the last one arrives. |
| Reassembly.ReceiveAll | podrum/network/raknet/rakhandler.c:140-157 | Over any run a compound is delivered once for every time all its fragments have come together, always as the original payload. |
| Reassembly.Arrive | podrum/network/raknet/rakhandler.c:140-157 | One arrival completes the compound exactly when it brings the last missing index, and leaves other compounds alone. |
| RakHolders.FrameHolder.HandleFragment | podrum/network/raknet/rakserver.c:445-504 | A fragment is held once; the compound is taken out when as many are held as it has. |
| RakNetworks.Transmit | podrum/network/raknet/rakserver.c:392-443 | From end to end: a payload is handed to the connection, the network delivers the datagrams ever sent in any order and number, and the other end parses them. Every delivery is the payload, there is one when everything arrives, and none while a fragment is missing. |
| RakNetworks.HandleDatagrams | podrum/network/raknet/rakhandler.c:187-213 | Datagrams of the sender, parsed and handed to the holder: nothing of a payload is delivered until its last missing fragment comes, then exactly the payload. |
| RakReceivers.Receiver.HandleSet | podrum/network/raknet/rakhandler.c:187-201 | A set is acknowledged, taken off the missing ones, and the numbers from two above the last one up to it are missing now. |
| RakReceivers.Receiver.SendQueues | podrum/network/raknet/rakserver.c:317-353 | A tick sends both queues as packets of their numbers, and empties them. |
| RakReceivers.Receiver.HandleEvents | podrum/network/raknet/rakserver.c:610-618 | Over any run of frame sets and ticks the expected number, both queues and everything sent are those the events determine. |
| RakArrivals.AckedExactly | podrum/network/raknet/rakserver.c:270-277 | Over any run with any ticks, the sets acknowledged or waiting to be are exactly those that have arrived; none waits twice. |
| RakArrivals.AskedExactly | podrum/network/raknet/rakhandler.c:196-200 | Over any run with any ticks and any order of arrival: a set is asked for if and only if some arrival jumped beyond it from at least two below, and it did not come before a later tick. |
| RakArrivals.QueuedExactly | podrum/network/raknet/rakhandler.c:194-200 | And it waits to be asked for if and only if there was such a jump, and since then neither it nor a tick came. |
| RakArrivals.AskedIfJumped | podrum/network/raknet/rakhandler.c:196-200 | A set that never comes is asked for if and only if some arrival jumped beyond it from at least two below. |
| RakArrivals.InOrderAsked | podrum/network/raknet/rakhandler.c:196-200 | For sets in order, over any run: a missing set is asked for unless it is the first missing one of its gap. |
| RakArrivals.AskedAllIffNoGap | podrum/network/raknet/rakhandler.c:196-200 | So every missing set is asked for if and only if none is missing. |
| RakArrivals.OneMissing | podrum/network/raknet/rakhandler.c:196-200 | Behind sets 0 and 2 nobody asks for set 1. |
| RakArrivals.AskedThoughReceived | podrum/network/raknet/rakhandler.c:200-200 | Behind sets 2, 0 and 3 set 2 is asked for, though it is there. |
| RakArrivals.ZeroNeverAsked | podrum/network/raknet/rakhandler.c:196-200 | Set 0 is never asked for. |
| RakReceivers.HandlePackets | podrum/network/raknet/rakhandler.c:105-136 | The packets of any run reach the other end in any order, some never and some more than once: no frame is ever lost, and when only acknowledgements come through, exactly the sets they name are forgotten; with all of them, the sets that have arrived. |
| RegionRuns.Run | podrum/world/format/anvil/region.c:194-268 | Over any run of stores at any times and of reopenings, however long, reading a chunk gives what was stored there last, and every other chunk is as it was. |
| RegionRuns.Step | podrum/world/format/anvil/region.c:7-69 | Reopening a saved file gives the same chunks, offsets and free map, one more free sector at most if the file was no whole number of sectors, and the timestamps cut to 32 bits. |
| RegionStores.TimestampsKept | podrum/world/format/anvil/region.c:57-66 | The timestamps are the same after reopening if and only if they all fit a signed 32-bit number. |
| RegionStores.LateTimestamp | podrum/world/format/anvil/region.c:91-99 | The second 2^31 comes back as -2^31. |
| RegionStores.PaddedWhole | podrum/world/format/anvil/region.c:25-33 | The padding makes whole sectors if and only if the file was a whole number of half sectors, or shorter than one. |
| RegionStores.Region.SetChunk | podrum/world/format/anvil/region.c:194-268 | At any time and in a file of any length: the chunk is stored, the others are untouched; a chunk that needs as many sectors as before stays in place and keeps its timestamp; otherwise it goes to the first run of free sectors, its old ones counting as free, and the file grows only if there is none. If compression fails nothing changes. |
| RegionStores.Region.GetChunk | podrum/world/format/anvil/region.c:130-192 | The bytes last stored, or none; out of bounds none. |
| RegionStores.Region.OnDisk | podrum/world/format/anvil/region.c:130-192 | Where the file has a chunk: its word in the header, the sectors that names, the length, the kind, 1 for gzip and 2 for zlib, and the bytes. |
| RegionStores.SectorsTaken | podrum/world/format/anvil/region.c:209-209 | A chunk takes the sectors its record needs, and one more if that fills them to the last byte. |
| RegionStores.Open | podrum/world/format/anvil/region.c:7-69 | Opening the bytes of a region, padded or not, gives that region, with timestamps of 32 bits. |
| RegionStores.EmptyRegion | podrum/world/format/anvil/region.c:16-24 | A file shorter than a sector becomes an empty region. |
| RegionStores.Region.SetSector | podrum/world/format/anvil/region.c:106-128 | A record of the chunk's size and five bytes is written inside its sectors, and nothing else. |
| RegionStores.Region.SetOffset | podrum/world/format/anvil/region.c:76-84 | An offset changes in memory and in the header, both alike. |
| FreeMap.FindRun | podrum/world/format/anvil/region.c:217-242 | First fit: the lowest run of n free sectors if there is one, otherwise proof that there is none. |
| FreeMap.FreeReleased | podrum/world/format/anvil/region.c:214-216 | Giving a chunk's sectors back keeps the free map exact: free means owned by nobody. |
| FreeMap.FirstFitLow | podrum/world/format/anvil/region.c:217-262 | The first fit, or the end of a file without one, never lies beyond 2^19 sectors, where the source could not point to it: gaps before it are short and chunks are few. |
| RegionLayout.RunsDisjoint | podrum/world/format/anvil/region.c:194-268 | The sectors of two chunks never overlap. |
| NbtReading.WriteThenRead | cnbt/nbt.c:218-227 | In all three encodings, whatever stands before and behind: a named tag that was written is read back, and reading stops where writing stopped. |
| NbtReading.GetNamed | cnbt/nbt.c:218-227 | Reads the named tag ahead, also the unnamed end tag. |
| NbtReading.GetTag | cnbt/nbt.c:114-156 | Reads a value of any kind, nested to any depth. |
| NbtReading.GetCompound | cnbt/nbt.c:171-192 | Reads entries up to the end tag. |
| NbtReading.GetList | cnbt/nbt.c:158-169 | Reads a list of one kind. |
| Nbt.PutTag | cnbt/nbt.c:331-371 | Writes a value of any kind. |
| Nbt.PutNamed | cnbt/nbt.c:415-422 | Writes a named tag. |
| Nbt.Kinds | cnbt/nbt.c:331-371 | The number of every kind of value. |
| Nbt.SampleCompound | cnbt/nbt.c:331-371 | A compound within a compound, byte by byte. |
| Nbt.SampleList | cnbt/nbt.c:331-371 | A list of two short numbers, byte by byte. |
| Nbt.ArrayLayout | cnbt/nbt.c:331-371 | Arrays and strings: how many, and the values. |
| BlockStorages.BlockStorage.Set | podrum/world/chunk/blockstorage.c:25-39 | One position changes to the id; palette ids stay distinct, indices stay inside, index 0 stays the initial id. |
| BlockStorages.BlockStorage.HighestBlockAt | podrum/world/chunk/blockstorage.c:41-50 | The highest position of a column that is not air, or -1. |
| BlockStorages.BlockStorage.IsEmpty | podrum/world/chunk/blockstorage.c:52-61 | Whether every position is air. |
| BlockPacking.PutBlockStorage | podrum/network/minecraft/mcmisc.c:593-634 | Version, words and palette, as the next row says. |
| BlockPacking.StorageLayout | podrum/network/minecraft/mcmisc.c:593-634 | A client finds every block: the least number of bits that will do but no 7, in the first byte; little-endian words with the low bits first, x slowest and y fastest; and the palette behind its size, all numbers doubled. |
| BlockPacking.VersionFits | podrum/network/minecraft/mcmisc.c:595-613 | The width chosen has room for every index of a palette of up to 65536 ids. |
| BlockPacking.StateRead | podrum/network/minecraft/mcmisc.c:614-629 | Every one of the 4096 indices can be taken out of the words where the client looks for it. |
| BlockPacking.StorageUnique | podrum/network/minecraft/mcmisc.c:593-634 | What is sent determines the storage, whatever follows it. |
| Chunks.Chunk.SetBlock | podrum/world/chunk/chunk.c:24-27 | Exactly one block changes, in its layer and section; nothing if the layer is not there. |
| Chunks.Chunk.HighestBlockAt | podrum/world/chunk/chunk.c:39-49 | The highest block of a column that is not air, over all sections. |
| Chunks.Chunk.SendCount | podrum/world/chunk/chunk.c:62-74 | The sections left out are all air, and the last one sent is not. |
| Chunks.NewChunk | podrum/world/chunk/chunk.c:4-17 | A new chunk is 25 sections of two layers, all air, no two sharing storage. |

## Left out

Of the compressor and decompressor:

- Sinks.Sink.Give: a large enough caller's buffer is written directly in the source; here the bytes are copied, which gives the same bytes. An output function that fails is not modelled.
- Deflaters.Deflater.Covered: the block counter is unbounded here; in the source it has 32 bits and a stream of 2^32 blocks would get a second zlib header.
- StreamReaders.Decompress: one run with all input and a plain output buffer; the suspension points of the coroutine, partial input, the wrapping output window, and how much input a failed run reports as used, are not modelled.
- The parser for level 1, the unaligned loads and the 64-bit bit buffer, which are switched off in the source's configuration.
- The ZIP archive and PNG parts of miniz.

Of RakNet:

- RakFrames.GetFrame: expects the bytes of a well-formed frame; on a truncated packet the source reads beyond its buffer. Acks.GetAcknowledge likewise.
- RakConnections.Connection.AddToQueue: expects that the 24-bit counters do not run over during the call; the source lets the number wrap on the wire, and conservation then fails.
- RakReceivers.Receiver.HandleEvents: expects that the queues hold less than 65536 numbers, the 16 bits of their sizes in the source.
- RakReceivers.HandlePackets: expects that resending does not take the 24-bit set numbers beyond their end.
- RakNetworks.Transmit: expects that no earlier compound had the same 16-bit id; the source would mix them up. Sending the same set again is not part of that run, only repeated delivery is.
- What a delivered frame does (pings, connection requests, the game), sockets, threads, timeouts, and the offline handshake.

Of the region store:

- RegionStores.Region.SetChunk: zlib is an abstract pair of functions, and a chunk takes at most 127 sectors, as the source keeps their number in a signed char. A long has 64 bits.
- RegionStores.Open: expects offsets that name disjoint runs of sectors inside the file; other offsets make the source read and write beyond its buffer or mix chunks up.
- Reading and writing the file itself, allocation failure, and closing.

Of NBT and chunks:

- NbtReading.GetTag: expects well-formed bytes; the source does not check for the end of its buffer.
- NbtNumbers.PutFloat: a float is its bit pattern.
- NbtReading.WriteThenRead: two tags never share memory here, and names are byte strings.
- BlockPacking.VersionFits: the logarithm is the exact one; the source computes it in floating point.
- Chunks.Chunk.HighestBlockAt: expects a block that is not air in the column and layer, and Chunks.Chunk.SendCount a chunk that is not all air; otherwise the source's unsigned loop counter runs below zero and it reads outside the chunk.
- Biomes and the sub-chunk packet around the storage.
- Everything else of the server: login, commands, players, logging, configuration, JSON, base64 and UUIDs.
