# lbard, verified

lbard carries Rhizome bundles, each a manifest and a body, between mesh nodes over slow radio links. This project
models the parts of it whose correctness is hardest to see, in Dafny 4.11, and proves what they promise.

- **Compression** (`miniz.c`, RFC 1951 and RFC 1950). The LZ77 parser over a ring dictionary with hash chains
  (`LzWindow`, `LzChain`, `LzHash`, `LzParse`), the code buffer (`CodeBuffer`), code construction in place
  (`RadixSort`, `MinimumRedundancy`, `CodeLengths`),
  its optimality (`PrefixCost`, `HuffmanOptimal`), length limiting and what it costs (`CodeLimit`, `LimitSpread`,
  `LimitCost`), canonical codes on both sides (`Canonical`, `EncoderTable`, `InflateTable`, `InflateBuild`), bits
  (`BitIO`, `Windows`), headers (`SizePacking`, `BlockHeader`, `HeaderReader`), blocks and their size (`Blocks`,
  `BlockSize`, `BlockWriter`, `BlockFlush`), the compressor and its callers (`Deflate`, `MzStream`), the decompressor
  (`InflateLoop`, `CopyPaths`, `InflateBlocks`), the checksum (`Adler32`), the format
  by its rules (`FormatRules`), and all of it together (`Zlib`).
- **One-way transport** (`drv_outernet.c`, `outernetrx.c`). Parity stripes and recovery (`Parity`, `ZoneCells`,
  `Recovery`), packets (`OutnetPackets`), sender (`OutnetSender`), receiver as a value and as updated in place
  (`OutnetLane`, `OutnetReceiver`), whole runs (`OutnetZone`, `OutnetRun`), sender, channel and receiver together
  (`OutnetTransfer`), runs of two bundles (`OutnetBundles`), and runs that go wrong (`OutnetMishaps`).
- **Bundle pieces** (`bundle_piece.c`, `bundlelength.c`, `partials.c`, `bundle_tree.c`). Messages (`PieceMessage`,
  `PieceWriter`, `PieceLength`), segments as values and as a linked list (`Segments`, `SegmentList`), the record of a
  partial bundle (`PieceReceiver`), runs with loss, repeats, reordering, announced lengths and eviction (`PieceRun`,
  `PieceLoss`), the sender's cursors (`PieceCursor`), and what a whole pass delivers (`PiecePass`).
- **Manifests** (`manifest_compress.c`, `bundle_cache.c`): field codecs (`ManifestFields`, `ManifestFormat`), whole
  manifests
  (`ManifestText`, `ManifestPacker`), and delivery from store to store (`BundleDelivery`).
- **SHA-1** (`sha1.c`, FIPS 180-2): the specification (`Sha1Spec`) the streaming hash (`Sha1`), and an
  example (`Sha1Example`).
- **Ranking** (`rank.c`): `Ranking`.

`dafny verify dfyconfig.toml` checks everything.

What a piece of code updates in place is a class or an array here, with methods proved against functions of the old
state; what is proved about runs and round trips is proved about those functions. Time, randomness, the channel's
losses, the caller's choice of pieces, flushes and room, and the room each packet has are parameters that the theorems
quantify over. What lies in memory past the end of a buffer is taken as zeros. `|` of numbers without common bits
appears as `+`.

A constant that a method and its specification share is also pinned by a theorem of its own that states it as a number or
by the rule of its standard: so the layouts, `FormatRules` (with `LongestLength` and `RunsByRule`), `ManifestFormat`,
`ManifestText.RefusedIff`, and the examples.

## Model

| member | source | states |
|---|---|---|
| Zlib.RoundTrip | src/eeprom/miniz.c:1064-1111 | For every input, cut into any pieces, each with any kind of flush, the last one offered together with the finish as in the one-call use, with any parse options, raw, fixed or own codes, with or without the zlib wrapper, and with any room of at least one byte for each call's output: the bytes given out, one after another, decompress to exactly the input, the checksum included. Unconditional: no call fails and all loops end. |
| Zlib.FinishStream | src/eeprom/miniz.c:1064-1111 | Offering the last piece with the finish, and what is left of it again until the end of the stream is reported, terminates; then the blocks sent stand for all of the input, this piece included, and every byte made has been given out. |
| MzStream.MzDeflate | src/eeprom/miniz.c:1064-1111 | One call takes at most two of tdefl_compress; it says when each status is returned, after an accepted call the room is full or the input taken, and with a finish the end is reported only when all of it is; whenever it stops with work undone, less work is left, or the stream is newly finished, or fewer bytes wait; and a sync or full flush that starts and ends with nothing waiting has flushed everything, the full one also the dictionary. |
| Deflate.Deflater.Compress | src/eeprom/miniz.c:2642-2696 | For any piece of input, kind of flush and room: what is taken joins the input, what is given is the next of the bytes made, at most the room and all of it while more waits; refused exactly after an earlier refusal or end, or when input follows a finish; done exactly when finished with nothing waiting, and newly finished only with all of the piece taken; a call that starts clear does all that was asked or leaves less work. |
| Deflate.Deflater.CompressNormal | src/eeprom/miniz.c:2503-2619 | The main loop ends, keeps the blocks sent equal to the input up to the current block, and stops early only when the caller's room is full, having parsed something. |
| LzParse.Compressor.Parse | src/eeprom/miniz.c:2550-2605 | One step of the lazy parse: exactly what it records, keeps back and moves on by, given what is found at the position; the recorded tokens still expand to exactly the input parsed, less the one byte a saved match holds back, and the saved match repeats the input. |
| LzParse.Compressor.Choose | src/eeprom/miniz.c:2550-2575 | What is found at a position: with no more probes than the dictionary has places, a match that nothing in sight in the dictionary beats; with run lengths the longest run of the byte before; with raw blocks nothing. Of these only matches of three bytes from 8192 back or more are dropped, those from as far back as the position in the ring, and, with the filter, those of up to five bytes. |
| LzParse.Compressor.MatchIsUsed | src/eeprom/miniz.c:2576-2603 | A match that is found and not dropped is used: at once, or a step later if the next position has no longer one; and if it has, the longer one is used or kept in turn, behind one literal. |
| LzParse.RepeatIsFound | src/eeprom/miniz.c:2305-2331 | At the second abcde of xabcdeabcdeabcde what is found is all ten bytes left, five back. |
| LzParse.Compressor.LiteralsFlush | src/eeprom/miniz.c:2606-2610 | A block of literals alone is flushed exactly when it has more than 31744 bytes, so that the ring still holds them. |
| LzParse.Compressor.Take | src/eeprom/miniz.c:2511-2547 | Takes input into the ring until the lookahead is full or the input ends; the ring and its mirrored tail hold the last bytes of the input; every position of the dictionary and the lookahead with three bytes is on its hash chain, its link leading to the one before it in its bucket, and the bucket to the last; and what was parsed stays parsed. |
| LzParse.Compressor.FindMatch | src/eeprom/miniz.c:2305-2331 | Any match it returns is longer than the one to beat, fits the lookahead, lies inside the dictionary, repeats the input and stands on its hash chain; and unless it takes in all of the lookahead, it has looked at the chain to its end, or at as many places as the probes allow, which are another number from 32 bytes to beat on; with more probes than the dictionary is long no earlier position in the dictionary and in sight repeats more. |
| LzHash.ChainReaches | src/eeprom/miniz.c:2511-2547 | The chain from a position leads, with all its steps inside the dictionary, to every earlier position there that begins with the same three bytes, unless one of their bucket from there on is a multiple of 65536. |
| LzHash.FollowedIsBest | src/eeprom/miniz.c:2305-2331 | So a chain followed to its end, or for as many places as the dictionary has, has met every match in sight. |
| LzHash.MultipleHides | src/eeprom/miniz.c:2305-2331 | Where the position last entered in the bucket is a multiple of 65536 the chain ends at once, and hides it and all before it. |
| CodeBuffer.LzBuffer.RecordMatch | src/eeprom/miniz.c:2481-2501 | The code buffer's bytes, with the flags of the open group, and the symbol counts are those of the tokens so far and one match more. |
| CodeBuffer.LzBuffer.Finish | src/eeprom/miniz.c:2180-2181 | Shifting the last flag byte down, or dropping an unused one, leaves exactly the groups of the recorded tokens. |
| TokenCoding.CompressLzCodes | src/eeprom/miniz.c:2111-2153 | Walking the code buffer writes, after whatever bits were there, exactly the bits of the buffer's tokens and of the end of the block, and says whether all of it found room. |
| InflateLoop.InflateSymbols | src/eeprom/miniz.c:1555-1615 | On the bits of any tokens under any accepted code tables, the symbol loop with its fast and slow paths leaves exactly what the tokens expand to, and takes exactly their bits. |
| InflateBlocks.Inflater.InflateAll | src/eeprom/miniz.c:1457-1673 | Blocks of all three types up to the final one are expanded one after the other; the bits after them are left. |
| CopyPaths.CopyMatch | src/eeprom/miniz.c:1617-1670 | Whichever of the three copying paths is taken, the buffer is that of copying one byte at a time, with overlap and wrap, as far as there is room, and what is left to copy is said. |
| CopyPaths.CopyRest | src/eeprom/miniz.c:1617-1633 | A copy stopped by a full buffer goes on from the buffer's start as one byte at a time would, wrapped. |
| CopyPaths.RingIsLz | src/eeprom/miniz.c:1623-1632 | In a buffer that does not wrap, copying one byte at a time is the copy of the format (section 3.2.3 of RFC 1951). |
| Tokens.LengthAgrees | src/eeprom/miniz.c:1431-1432 | For each of the 256 match lengths the encoder's symbol and extra bits are what the decoder's base and extra-bit tables turn back into the length. |
| Tokens.DistanceAgrees | src/eeprom/miniz.c:1433-1434 | The same for each of the 32768 distances, over the encoder's two table pairs. |
| FormatRules.LengthByRule | src/eeprom/miniz.c:1770-1784 | The tables' symbol and number of extra bits for a length are those of the rule behind section 3.2.5 of RFC 1951: each further group of four symbols is twice as wide. |
| FormatRules.DistanceByRule | src/eeprom/miniz.c:1786-1820 | The same for distances, in groups of two. |
| FormatRules.CodesInOrder | src/eeprom/miniz.c:1898-1906 | Codes of one length follow each other by one in the order of their symbols, the shorter come first, and the first is nought (section 3.2.2 of RFC 1951). |
| FormatRules.FixedCodesAre | src/eeprom/miniz.c:2001-2013 | The fixed codes are those of section 3.2.6 of RFC 1951. |
| FormatRules.CodeFirstBitFirst | src/eeprom/miniz.c:1903-1905 | A code is sent first bit first. |
| FormatRules.BlockStarts | src/eeprom/miniz.c:2188-2214 | A block starts with its final flag and two bits of type, the lower first. |
| FormatRules.DynamicStarts | src/eeprom/miniz.c:1984-1991 | A header starts with the three counts, in 5, 5 and 4 bits, less 257, 1 and 4, and the code lengths' own lengths. |
| FormatRules.OneLetter | src/eeprom/miniz.c:2165-2267 | The zlib stream of the one letter a is, byte for byte, 78 01 4b 04 00 00 62 00 62. |
| RadixSort.Sort | src/eeprom/miniz.c:1822-1836 | The array ends as the stable digit passes leave it, also when the second pass is skipped. |
| RadixSort.SortedIsSorted | src/eeprom/miniz.c:1822-1836 | For all 16-bit keys the passes leave the symbols in key order. |
| RadixSort.SortedIsStablePermutation | src/eeprom/miniz.c:1822-1836 | For each key the symbols with that key come out as they went in: nothing lost, nothing invented, order kept. |
| MinimumRedundancy.PairUp | src/eeprom/miniz.c:1843-1848 | The first phase in place leaves the parents that the pairing of lightest items gives, though it reuses the cells of weights already taken. |
| CodeLengths.Calculate | src/eeprom/miniz.c:1839-1857 | The three phases in place terminate for every array, leave lengths that never rise and whose Kraft sum is one, keep the symbols, and for weights in order with 16-bit sum leave an optimal prefix code no longer than 22 bits, the depths of the tree that the pairing builds. |
| CodeLengths.TiesStayFlat | src/eeprom/miniz.c:1843-1848 | Where a symbol and a node weigh the same the symbol is taken: weights 1, 1, 2 and 2 get two bits each. |
| HuffmanOptimal.TreeIsOptimal | src/eeprom/miniz.c:1843-1850 | No prefix code for the weights, of whatever lengths, costs less than the depths of the tree the pairing builds. |
| HuffmanOptimal.TreeIsShallow | src/eeprom/miniz.c:1843-1850 | With 16-bit sums no symbol lies deeper than 22. |
| HuffmanOptimal.LeafIsLight | src/eeprom/miniz.c:1843-1850 | The sum of all weights is at least a Fibonacci number of a symbol's depth times its weight. |
| CodeLimit.Enforce | src/eeprom/miniz.c:1861-1872 | For the counts of any complete code that fits, limiting terminates, finds a shorter code to split each time, leaves no count negative, keeps the number of codes, and ends with Kraft sum exactly two to the limit; the lengths left are those of the steps from the folded ones, and the lengths themselves if they keep to the limit. |
| LimitCost.LimitedIsCheap | src/eeprom/miniz.c:1861-1872 | Limiting the lengths of up to 288 symbols to fifteen bits costs at most one bit more for each use. |
| EncoderTable.Optimize | src/eeprom/miniz.c:1874-1907 | The table it makes gives every used symbol and no other a code within the limit, the codes are the canonical ones reversed, complete if two symbols are used; with fifteen bits all uses together cost at most one bit each more than with any other prefix code, and no more at all, whatever the limit, if they are fewer than the Fibonacci number that would make a code so long. |
| Canonical.PrefixFree | src/eeprom/miniz.c:1899-1906 | No canonical code of a used symbol begins with another used symbol's code. |
| InflateBuild.HuffTable.Build | src/eeprom/miniz.c:1515-1535 | The decoder's table is built exactly for the lengths that fill their code space, or of which at most one is used; lookup and overflow tree then hold all codes. |
| InflateBuild.HuffTable.Decode | src/eeprom/miniz.c:1413-1426 | Lookup and overflow tree give back the symbol whose code begins the window, and exactly its length. |
| BitIO.BitReader.HuffDecode | src/eeprom/miniz.c:1413-1426 | However many bits wait and however near the end of the input, the symbol at the head of the stream is decoded and exactly its bits are used. |
| BitIO.BitWriter.PutBits | src/eeprom/miniz.c:1909-1918 | The bits put so far, stored or waiting, are those before and the new ones; bytes without room are dropped. |
| SizePacking.Pack | src/eeprom/miniz.c:1957-1980 | Runs of equal lengths are packed so that expanding them gives the lengths back, each run's extra value fits its bits, the array grows no longer than the input, and the counts are those of the codes used. No run is missed: no more than three equal lengths, or two zeros, stand singly in a row, and only a longest run is followed by more of the same. |
| BlockHeader.WriteHeader | src/eeprom/miniz.c:1949-1997 | The header written is a consistent one for the lengths of the symbols in use, with just the unused symbols at the ends cut off, no run missed, and up to 33 items, of two kinds or more, coded as short as a prefix code can. |
| BlockHeader.EncoderOrder | src/eeprom/miniz.c:1937-1991 | The encoder sends the code lengths' own lengths in the order of the format: 16, 17, 18, 0, and then outwards from 8 and 7. |
| HeaderReader.DecoderOrder | src/eeprom/miniz.c:1434 | The decoder's own table gives that order too. |
| HeaderReader.MetaInOrder | src/eeprom/miniz.c:1508 | Position by position: bits 3i to 3i+3 of that part of a header are the length of code 16, 17, 18, 0 for i below 4, of code 8+j for i = 4+2j, and of code 7-j for i = 5+2j. |
| HeaderReader.ReadHeader | src/eeprom/miniz.c:1507-1552 | From the bits of any consistent header the decoder recovers both tables' lengths, and leaves the bits that follow. |
| BlockSize.SymbolsFit | src/eeprom/miniz.c:2111-2153 | Whatever the tokens of a full code buffer, coded with their own codes they take at most 655367 bits. |
| BlockFlush.FixedFits | src/eeprom/miniz.c:842-847 | Whatever the tokens of a full code buffer, coded with the fixed codes they fit the output buffer. |
| BlockFlush.PutBody | src/eeprom/miniz.c:2190-2216 | The block put is one that decodes to the input it stands for; raw exactly if that is asked for or the codes save nothing, and the ring still holds the input, with the fixed codes if those are asked for or the input has less than 48 bytes, and else with its own, well chosen. It never outgrows the output buffer, so that the fallback of lines 2212-2216 is never needed, nor, while the ring holds its input, the input by more than 41 bits. |
| BlockFlush.Output.Drain | src/eeprom/miniz.c:2231-2265 | Under the assertion of line 2231, which every flush is shown to meet, what is handed on and what still waits are all the bits put. |
| BlockFlush.Output.FlushLast | src/eeprom/miniz.c:2165-2267 | The bytes sent with the last block are the whole stream: header, all blocks, padding to a byte and the checksum. |
| Deflate.Deflater.BlocksAsAsked | src/eeprom/miniz.c:2165-2267 | A finished stream is raw blocks only, if that was asked for, for then the ring still holds every block's input; has no codes but the fixed ones, if those were; and else no block that is not raw has codes of its own for less than 48 bytes, or the fixed ones for more. |
| Deflate.Deflater.FlushedIsAll | src/eeprom/miniz.c:2680-2692 | After a sync or full flush that leaves nothing waiting, the bytes given out so far are whole blocks, up to the last bit, that expand to all of the input so far. |
| Adler32.Compute | src/eeprom/miniz.c:977-990 | The blocked loop equals the checksum reduced at every byte (section 2.2 of RFC 1950), for every buffer and start value; no sum leaves 32 bits. |
| Adler32.AdlerAppend | src/eeprom/miniz.c:977-990 | The checksum of two parts in turn is that of the two together. |
| Adler32.BlockFits | src/eeprom/miniz.c:980-987 | 5552 bytes from reduced sums stay within 32 bits. |
| OutnetPackets.SizesAgree | src/drivers/drv_outernet.c:516-524 | Sender and receiver accept a packet size from four on, and agree on its parts, exactly if it is a multiple of four. |
| Parity.StripesAre | src/drivers/drv_outernet.c:551-574 | The four stripes: of which thirds of which slices each is the XOR. |
| OutnetSender.Uplink.BuildPacket | src/drivers/drv_outernet.c:505-608 | Each call, however far on in the bundle, gives its next packet: the slice, the stripe over the other three of its zone, its number and flags; after the last of the last zone the lane is idle. |
| OutnetReceiver.Read | src/outernetrx/outernetrx.c:368-402 | Whatever the packet's bytes: no such lane, bad size, one of the two failures, or a packet of matching data and stripe sizes, with 32-bit unsigned arithmetic. |
| OutnetReceiver.ReadingBySize | src/outernetrx/outernetrx.c:368-396 | Which size bytes the receiver takes, and exactly which it does not survive: 2, 3 and 4. |
| OutnetReceiver.ReadEncode | src/drivers/drv_outernet.c:574-601 | What the sender encodes is read back, whatever its number is and whatever follows it in the buffer, but that only 14 bits of the number are kept and the next two are taken for flags. |
| OutnetPackets.PacketLayout | src/drivers/drv_outernet.c:574-601 | A packet, byte by byte: the lane; the number, lowest byte first, with the start flag 0x4000 and the end flag 0x8000; the packet size; three parts of data and one of parity. |
| OutnetPackets.BundleLayout | src/drivers/drv_outernet.c:222-230 | A serialised bundle: the manifest's length in two bytes and the body's in four, lowest first, the manifest, the body. |
| OutnetReceiver.ReadsBackIff | src/drivers/drv_outernet.c:498-608 | Every packet of a bundle is taken for what it is exactly if the bundle, lengths included, has at most 49152 bytes for each parity byte of a packet; in a longer one packet 16384 is taken for the start of another bundle. |
| OutnetReceiver.SawPacket | src/outernetrx/outernetrx.c:361-516 | Any packet, of any size, on any lane at rest: the lane named steps as the lane function says and comes to rest again; refused packets change nothing; and it says exactly which packets the source does not survive. |
| OutnetReceiver.OneSizeSurvives | src/outernetrx/outernetrx.c:361-516 | With one data size in use the receiver survives every packet, but exactly those with a size byte of 2, 3 or 4. |
| OutnetLane.StaysCalm | src/outernetrx/outernetrx.c:361-516 | After any packet of any size at most two pieces lie in the bitmap, the last zone is the one before, and a waiting lane is empty. |
| OutnetLane.StaysResting | src/outernetrx/outernetrx.c:361-516 | After packets of one size, also the buffer covers what was committed. |
| OutnetLane.OneSizeFits | src/outernetrx/outernetrx.c:198-256 | Packets of one size never make the commit write past the buffer. |
| OutnetLane.OtherSizesOverrun | src/outernetrx/outernetrx.c:198-256 | After zones of 12 bytes a packet that completes a zone of 756 makes the commit write past its buffer exactly if 173 zones have come: one doubling is not enough. |
| OutnetMishaps.RunOverruns | src/outernetrx/outernetrx.c:198-256 | The run that leads there: the first three packets of each of n zones of 12 bytes, two of the next, and then a packet of 252 bytes overrun the buffer exactly if n is at least 173. |
| OutnetMishaps.HalfIsHandedOn | src/outernetrx/outernetrx.c:109-169 | Of any bundle of three zones or more in up to 65536 bytes, the first zone and then one packet of the third make the receiver hand something on, which is the bundle only if that goes on with zeros. |
| OutnetLane.OneDoublingSuffices | src/outernetrx/outernetrx.c:198-256 | One doubling of the buffer always makes room for one zone more. |
| Recovery.RecoverSlice | src/outernetrx/outernetrx.c:275-352 | The copying and XOR steps in place are the recovery of the missing slice as written. |
| Recovery.LastSliceIsRight | src/outernetrx/outernetrx.c:284-298 | From slices 0 to 2 and their stripes, slice 3 comes out as the sender had it. |
| Recovery.IntendedIsRight | src/outernetrx/outernetrx.c:284-346 | With the stripe that covers it, any third of any one slice would come out right. |
| Recovery.WrittenIsRight | src/outernetrx/outernetrx.c:284-346 | As written, a third comes out right exactly if the stripe copied equals the one that covers it. |
| Recovery.OthersCanBeWrong | src/outernetrx/outernetrx.c:301-346 | For each of slices 0, 1 and 2 there are packets whose recovery is wrong. |
| OutnetRun.RunIsSafe | src/outernetrx/outernetrx.c:361-516 | In every run of one bundle's packets in order, with repeats and with losses that the recovery can cope with: the committed bytes are the sender's, with zeros behind them up to the end of the buffer, at most two pieces lie, one doubling suffices, and nothing has been handed on. |
| OutnetRun.RunDelivers | src/outernetrx/outernetrx.c:109-169 | If the first three packets of every zone came, exactly the sender's bundle is handed on: twice by the end packet, if it came, and otherwise by the next start. |
| OutnetRun.TriedHalfway | src/outernetrx/outernetrx.c:148-152 | A lane in the middle of a bundle passes the size test exactly if the allocated buffer, not what was received, has room for the body. |
| OutnetRun.RunHandsOnBeginnings | src/outernetrx/outernetrx.c:109-169 | If some zone did not get its first three packets, whatever is handed on comes from a buffer that begins with committed zones of this bundle and goes on with zeros. |
| OutnetRun.StartClears | src/outernetrx/outernetrx.c:412-421 | A start packet does in any resting lane, whatever its data size was, what it does in one that waits. |
| OutnetBundles.BackwardsClears | src/outernetrx/outernetrx.c:439-448 | A packet of a zone below the last one makes the receiver try what the lane holds and leaves the lane empty and waiting. |
| OutnetBundles.NextBeginsAfresh | src/outernetrx/outernetrx.c:412-448 | If the first packet that comes of another bundle cannot be one of the zone being received, or of the one before, the lane does from there on what an empty one does, whatever is lost. |
| OutnetBundles.NeverMixed | src/outernetrx/outernetrx.c:361-516 | Over runs of two bundles, with any losses the recovery can cope with: unless the first packet that comes of the second, but for those that might be more of the zone just committed, is of the zone being received, nothing handed on holds bytes of both. |
| OutnetBundles.OtherwiseMixed | src/outernetrx/outernetrx.c:361-516 | If the first three that come are of that zone, they are committed behind the zones of the first bundle. |
| OutnetTransfer.Transfer | src/drivers/drv_outernet.c:505-608 | Sender, channel and receiver together: the lane ends as the run of the packets brought over says. |
| PieceWriter.AppendPiece | src/messages/bundle_piece.c:45-128 | What is appended to the packet is the message planned, of exactly the planned size, and nothing else changes. |
| PieceMessage.OutgrowsIff | src/messages/bundle_piece.c:45-128 | A message outgrows the packet's limit, by at most two bytes, exactly if the piece leaves less than two of the bytes that it might have taken. |
| PieceMessage.NotSentIff | src/messages/bundle_piece.c:50-84 | Exactly when nothing can be sent, and exactly when nothing is sent for now: in 64-byte mode with more left than the room and no unit that ends in it. |
| PieceMessage.TooShortIff | src/messages/bundle_piece.c:679 | A message at the end of its packet is refused as too short exactly if it carries at most one byte from an offset below 2^20. |
| PieceWriter.ReadPiece | src/messages/bundle_piece.c:654-717 | The parser's loops, over an accumulator of 32 bits, recover the message's parts. |
| PieceMessage.ParseBuilt | src/messages/bundle_piece.c:654-717 | Of a message the sender built the parser recovers everything, but only 20 bits of the offset; unless the packet ends too soon after the header. |
| PieceMessage.HeaderLayout | src/messages/bundle_piece.c:97-125 | A message's header, byte by byte: recipient, bundle id, version, then 20 bits of offset, the length and the manifest's mark, and for offsets from 2^20 on two bytes more; lowest bytes first. |
| PieceMessage.LetterOf | src/messages/bundle_piece.c:106-109 | Its letter is p or q below 2^20, P or Q from there on; q and Q when it is not the last. |
| PieceMessage.StartRecovered | src/messages/bundle_piece.c:662-693 | The offset is recovered exactly if it is below 2^20. |
| PieceMessage.EndIsRight | src/messages/bundle_piece.c:61-84 | When a piece marked as the end is the end: always but for more than 2047 bytes left that would have fitted the packet. |
| PieceMessage.EndIsReached | src/messages/bundle_piece.c:61-84 | In packets of at most 255 bytes a piece marked as the end is the end. |
| PieceMessage.EndIsMarked | src/messages/bundle_piece.c:61-84 | When a piece that reaches the end is marked: always but when what was left just fills the packet, and, in 64-byte mode, ends on a unit. |
| PieceMessage.EndsOnUnit | src/messages/bundle_piece.c:70-79 | In 64-byte mode a piece that is not the last ends where a 64-byte unit does. |
| PieceCursor.TxCursor.Announce | src/sync/bundle_tree.c:175-276 | In one packet, the body getting the room that the manifest's message and the announcement of the body's length have left: the two cursors, the two pieces and whether the length is announced follow the step function, going back to the start when both streams are at their ends. |
| PieceCursor.ToldWhen | src/sync/bundle_tree.c:207-226 | A call announces the body's length exactly if the manifest is all sent by then, more than 21 bytes are left behind its piece, and of what the peer lacks of the body this pass has sent nothing yet, or all. |
| PieceCursor.PassRuns | src/sync/bundle_tree.c:261-276 | Within a pass the cursors only advance; the call that brings both to their ends goes back to the start. |
| PieceCursor.ManifestEnd | src/sync/bundle_tree.c:175-205 | A pass tells the manifest's length exactly if the piece that reached its end did not fill its packet: no manifest piece follows that one. |
| PieceCursor.BodyEnd | src/sync/bundle_tree.c:227-276 | A pass tells the body's length exactly if the piece that reached its end did not fill its packet, or a later call of the pass has room for a piece of no bytes. |
| PieceCursor.PassEnds | src/sync/bundle_tree.c:175-276 | With room for a 64-byte unit and the announcement at the start of every call, a pass ends within as many calls as the two streams together have bytes. |
| PieceCursor.NeverTold | src/sync/bundle_tree.c:175-276 | With manifest and body of 128 bytes, and packets with 149 and 170 bytes of room in turn, the sender goes round for ever and no piece is ever marked as an end. |
| PiecePass.PassDelivers | src/sync/bundle_tree.c:175-276 | From all that a finished pass sends to a new receiver, if nothing is lost, that puts the bundle together; provided the pass marks the manifest's end, and tells the body's length by its end, or by an announcement before its last piece, or the version does. |
| PieceLength.AnnounceLength | src/messages/bundlelength.c:45-62 | The announcement is written if more than its 21 bytes are left, and else nothing. |
| PieceLength.LengthLayout | src/messages/bundlelength.c:45-62 | L, the bundle's id, its version and the length, lowest bytes first. |
| PieceLength.LengthReadBack | src/messages/bundlelength.c:88-134 | What was announced is read back, whatever follows. |
| SegmentList.SegList.PlacePiece | src/messages/bundle_piece.c:382-488 | On the linked list the walk and what it does where it stops are the placing function; the assertion of line 437 never fails. |
| SegmentList.SegList.MergeSegments | src/xfer/partials.c:336-420 | On the linked list merging is the merging function, links and back links included. |
| Segments.StaysApart | src/messages/bundle_piece.c:372-491 | A list of descending, disjoint segments that do not touch stays one, whatever piece arrives. |
| Segments.StaysAgreed | src/messages/bundle_piece.c:372-491 | Every byte stored stays the stream's. |
| Segments.PieceArrives | src/messages/bundle_piece.c:372-491 | What had arrived stays, nothing is invented, and all of the piece is there exactly if the piece does not swallow a segment below one it touches. |
| Segments.WholeIff | src/messages/bundle_piece.c:499-508 | The one-segment test passes exactly when every byte of the stream has arrived, and the segment is then the stream. |
| PieceReceiver.PartialBundle.SawPiece | src/messages/bundle_piece.c:331-508 | The record of a partial bundle, with its two linked lists, steps as the run does, and hands on exactly then a whole bundle. |
| PieceReceiver.PartialBundle.SawLength | src/messages/bundlelength.c:64-86 | An announced length is taken down where there is a record already, and changes nothing else; whether a bundle is ever handed on hangs on it (`PieceRun.RunCompletes`). |
| PieceRun.CompleteIff | src/messages/bundle_piece.c:499-508 | The completion test passes exactly when all of both streams and both lengths are there, and then the segments are the bundle. |
| PieceRun.RunExact | src/messages/bundle_piece.c:180-647 | Whatever the losses, repeats, order, announced lengths and evictions, everything handed on is byte for byte the sender's bundle. |
| PieceRun.RunCompletes | src/messages/bundle_piece.c:180-647 | With no eviction and no piece that swallows a segment, the bundle has been handed on exactly if at some piece all of both streams had come, with the manifest's end, and the body's length was known: from its end, from an announcement after the first piece, or from a version below 2^32. |
| PieceRun.HandedIsReady | src/messages/bundle_piece.c:180-647 | In any run, evictions and swallowed segments included, a bundle is handed on only when that much had come. |
| PieceRun.StartsAgain | src/messages/bundle_piece.c:499-633 | After it has been handed on the record starts from nothing: what comes next is received as by a new receiver. |
| PieceRun.AnnouncedIsHanded | src/messages/bundle_piece.c:499-508 | A whole manifest marked as end, an announced length, and the body in one piece that is not marked: the bundle is handed on. |
| PieceRun.EarlyIsLost | src/messages/bundlelength.c:64-86 | An announcement that comes before any piece is lost: the same with the announcement first is not handed on. |
| PieceRun.JournalIsHanded | src/messages/bundle_piece.c:336-343 | The same manifest, and the body of a journal whose version is its length, need no announcement. |
| PieceRun.BuiltIsGenuine | src/messages/bundle_piece.c:45-128 | A message the sender builds into a packet of at most 255 bytes arrives as a genuine piece of the bundle. |
| PieceLoss.AllThereIsNotEnough | src/messages/bundle_piece.c:372-508 | For every manifest of up to 1024 bytes and every body of 256 there is a run of pieces, each of them one that the sender builds into some packet, that brings every byte and both ends, and nothing is handed on. |
| ManifestFields.FieldRoundTrip | src/rhizome/manifest_compress.c:85-211 | A field's compact form gives back its line, for hex, number and choice fields, whatever follows. |
| ManifestFormat.HexLine | src/rhizome/manifest_compress.c:64-99 | id, BK, sender and recipient of 64 upper-case hex digits take 33 bytes, 0x80 to 0x83 and two digits to a byte, and filehash of 128 takes 65, from 0x90; with any other value the line is stored as it is. |
| ManifestFormat.HexDecodes | src/rhizome/manifest_compress.c:144-166 | Of such a first byte and 32 or 64 bytes, whatever they are, the decoder makes the field's line. |
| ManifestFormat.NumberLine | src/rhizome/manifest_compress.c:72-114 | version, filesize, date, crypt and tail, from 0xa0 to 0xa4: a plain decimal of up to 63 bits takes a byte more than its groups of seven bits, the lowest first; a negative value is never done; any other is stored as it is. |
| ManifestFormat.ServiceLine | src/rhizome/manifest_compress.c:80-136 | service: file, MeshMS1 and MeshMS2 take two bytes, 0xb0 and their number; any other is stored as it is. |
| ManifestText.PlainIff | src/rhizome/manifest_compress.c:221-273 | A manifest stands for itself exactly if no line before the signature block starts with a byte from 0x80 and it is at most 1024 bytes long, 1022 with a signature block. |
| ManifestText.StoredDecodes | src/rhizome/manifest_compress.c:277-368 | Whichever form is stored, a receiver gets the manifest back exactly if that form is the compact one or the manifest stands for itself. |
| ManifestText.LateFieldFails | src/rhizome/manifest_compress.c:221-273 | A compact field that begins after byte 900 of the text is not decoded. |
| ManifestText.SmallManifestsDecode | src/rhizome/manifest_compress.c:277-368 | So does every manifest of at most 1022 bytes whose lines start below 0x80, whatever else it holds. |
| ManifestText.CanonicalIsPacked | src/rhizome/manifest_compress.c:277-340 | Lines of key and value whose values a compact form gives back, then a signature block or nothing: always stored in the compact form. |
| ManifestText.EndlessIff | src/rhizome/manifest_compress.c:104-114 | Encoding a field never ends exactly if it is a number field with a negative value. |
| ManifestText.NegativeNeverEnds | src/rhizome/manifest_compress.c:104-114 | A manifest whose first line gives a negative number is never encoded, whatever follows. |
| ManifestPacker.PackText | src/rhizome/manifest_compress.c:283-324 | The loop over the text, with the line split of sscanf, equals the encoding function. |
| ManifestPacker.UnpackText | src/rhizome/manifest_compress.c:221-273 | The decoding loop with its tokens, start-of-line flag, zero byte and bounds equals the decoding function. |
| ManifestPacker.CacheManifest | src/rhizome/bundle_cache.c:140-154 | What the cache keeps decodes to the manifest exactly as stored forms do; too long is refused, a negative number never done. |
| BundleDelivery.PiecesDeliver | src/messages/bundle_piece.c:510-533 | From store to store: whatever happens to the pieces, every bundle put together has the sender's body and a manifest that unpacks to the sender's. |
| BundleDelivery.TransportDelivers | src/outernetrx/outernetrx.c:109-169 | The same over the one-way transport, if the first three packets of every zone are brought over. |
| Sha1.RollingStep | src/crypto/sha1.c:90-94 | The sixteen-word rolling buffer holds the last sixteen of the eighty schedule words. |
| Sha1.Hash.HashBlock | src/crypto/sha1.c:72-120 | Eighty rounds over the rolling buffer are the compression of section 6.1 of FIPS 180-2, with the written forms of the round functions. |
| Sha1.Hash.Pad | src/crypto/sha1.c:203-235 | The padding fed is that of section 5.1.1 of FIPS 180-2, and its loop ends. |
| Sha1.HashPieces | src/crypto/sha1.c:176-277 | However a message under 2^32 bytes is cut into writes, the result is the digest of the whole padded message. |
| Sha1Example.AbcDigest | src/crypto/sha1.c:40-277 | The digest of abc is the one of appendix A.1 of FIPS 180-2. |
| Ranking.SizeOrder | src/rhizome/rank.c:92-109 | For lengths below 2^30 the size score stays in ten bits and never rises with the length. |
| Ranking.OrderIsLexicographic | src/rhizome/rank.c:111-175 | Without failures the order is by service, then by whether a peer is addressed, then by size score. |
| Ranking.SomeScores | src/rhizome/rank.c:92-175 | The scores of some bundles, as numbers. |
| Ranking.FailuresHalve | src/rhizome/rank.c:177-186 | k failures leave at most the 2^k-th part of the score. |
| Ranking.IntrinsicPriority | src/rhizome/rank.c:111-189 | The loops compute the initial score and its penalties. |

## Findings

Properties one would expect that do not hold of the code, each with the exact condition, and with an input where the
condition does not name one.

- Recovery of slices 0, 1 and 2 of a parity zone copies stripes 0, 1, 2 instead of those that cover the slice.
  `Recovery.OthersCanBeWrong` gives a zone for each; `Recovery.WrittenIsRight`: a third is right exactly if the two
  stripes are equal. Slice 3 is always right (`Recovery.LastSliceIsRight`), and in order it is the one recovered.
- A piece that touches one segment and takes in a lower one loses its bytes below that one: segments [192, 256) and
  [64, 128) and the piece [0, 192) (`PieceLoss.PieceSwallows`). `Segments.PieceArrives`: all of a piece arrives exactly
  if it swallows no segment. `PieceLoss.AllThereIsNotEnough` is a run of pieces that the sender builds in which
  every byte comes and the bundle is not put together.
- A piece that reaches the end of a stream is not marked as its end if what was left just filled the packet: 128 bytes
  from 0 into 149 (`PieceCursor.FullPacket`); the condition is `PieceMessage.EndIsMarked`. For a manifest nothing more is
  then sent in that pass (`PieceCursor.ManifestEnd`); a body's end is told later only if the pass goes on
  (`PieceCursor.BodyEnd`). `PieceCursor.NeverTold` is a bundle of which no piece is ever marked as an end; its body's
  length is announced separately, its manifest's is never told.
- A piece marked as the end is not the end if more than 2047 bytes were left and would have fitted the packet
  (`PieceMessage.EndIsRight`, an if-and-only-if); packets of at most 255 bytes, which is what there are, never do that.
- The parser keeps only 20 bits of a piece's offset: right exactly below 2^20 (`PieceMessage.StartRecovered`).
- A message at the end of its packet is refused as too short exactly if it carries at most one byte from below 2^20
  (`PieceMessage.TooShortIff`). Such is the piece of no bytes that tells the end of a body all of which has been sent
  (`PieceMessage.EmptyEnd`).
- 21 bytes are reserved for a header of 23, and 23 for one of 25: 128 bytes take 151 where 149 are left
  (`PieceMessage.Outgrown`). A message outgrows its packet exactly if the piece leaves less than two of the bytes
  it might have taken (`PieceMessage.OutgrowsIff`).
- An announcement of a body's length that comes before any piece is lost (`PieceRun.EarlyIsLost`); after one it counts
  (`PieceRun.RunCompletes`).
- A position that is a multiple of 65536 cannot be told from none on a hash chain, and hides all before it there
  (`LzHash.MultipleHides`); every other is found (`LzHash.ChainReaches`, with the condition `LzHash.InSight`).
- A packet of the one-way transport whose size byte is 3 or 4 makes the receiver divide by zero, and with 2 the size
  wraps around to a gigabyte: `OutnetReceiver.ReadingBySize`, exactly these.
- A packet whose size differs from that of the bundle so far can make the commit write past its buffer, which is doubled
  once at most: exactly if the zone it completes ends beyond that (`OutnetLane.Overruns`, `OutnetReceiver.SawPacket`;
  `OutnetMishaps.RunOverruns` is a run that does it, exactly if 173 small zones have come). With one
  size it never does (`OutnetLane.OneSizeFits`).
- Whether a bundle is all there is judged by the size allocated for it, not the size received
  (`OutnetRun.TriedHalfway`, an if-and-only-if): of a body of 36 ones, 6 are handed on with zeros behind
  (`OutnetMishaps.OnesAreCutOff`, `OutnetMishaps.HalfIsHandedOn`). A whole bundle is handed on twice when its end packet
  comes (`OutnetRun.RunDelivers`).
- Two bundles in turn can be mixed: if of the next bundle the first packets that come are of the zone being received,
  they are committed behind the zones of the first (`OutnetBundles.OtherwiseMixed`). Else they never are
  (`OutnetBundles.NeverMixed`).
- From packet 16384 on a bundle's sequence number runs into the flags beside it: packet 16384 is taken for the start of
  another bundle. It happens exactly to bundles of more than 49152 bytes, lengths included, for each parity byte of a
  packet (`OutnetReceiver.ReadsBackIff`).
- A negative number in a manifest's number field keeps the encoder going for ever: `version=-1`
  (`ManifestText.NegativeVersion`), exactly for negative values (`ManifestText.EndlessIff`).
- A manifest stored as it is may not decode: exactly if one of its lines starts from 0x80 on, or it is longer than 1024
  bytes, or than 1022 with a signature block (`ManifestText.PlainIff`). The one byte 0x85 is stored and does not decode
  (`ManifestText.TokenIsLost`).
- A negative length would keep the ranking's bit count going for ever (`Ranking.NegativeNeverZero`).

And one that does hold, where the source is in doubt: the comment at line 2211 of `src/eeprom/miniz.c` calls a dynamic
block that does not fit the output buffer unlikely if not impossible. It is impossible (`BlockSize.SymbolsFit`,
`BlockFlush.PutBody`), because limiting costs at most a bit a use and an optimal code is no dearer than nine bits for a
literal and six for a length.

## Left out

- OutnetReceiver.SawPacket: what the receiver's memory holds after it has written past a buffer or divided by zero is not
  modelled.
- Zlib.Decompress: for streams that a compressor made; how the decompressor refuses others is modelled only where a
  table is built (`InflateBuild.HuffTable.Build`).
- InflateBlocks.Inflater.InflateAll: for well-formed blocks, as a compressor makes them.
- InflateLoop.InflateSymbols: for well-formed symbols of a block; a distance before the output's start, and input that
  ends too early, are not modelled.
- HeaderReader.ReadHeader: for consistent headers; that it refuses the others is not modelled.
- BitIO.BitReader.HuffDecode: for windows that begin with a code; a table of one code, as of a block with one distance,
  leaves windows that begin with none.
- OutnetRun.RunIsSafe: for bundles whose packet numbers fit 14 bits; what happens to longer ones is
  `OutnetReceiver.ReadsBackIff`.
- Ranking.IntrinsicPriority: for lengths below 2^30, where the shifts stay within 32 bits.
- PieceCursor.TxCursor.Announce: the send point that a peer's progress bitmap may set, and the moves of a peer's cursors
  when a piece is sent to another peer of the same bundle, are not modelled; a pass is one without either.
- Resuming the decompressor in the middle of its input, and its wrapping output buffer above single matches.
- The fast compressor for x86, the match finder's unaligned loads, and the 64-bit bit writer; the portable forms are
  modelled.
- ZIP archives, PNG and allocation in `miniz.c`, and the level and strategy tables: the options are parameters.
- The queues of the one-way transport's lanes, and which bundle goes into which.
- Choosing the record for a piece among those in flight, journal preloading, reports to the sender, request bitmaps.
- Memory exhaustion, and writes past a buffer's end.
- Sockets, radios, HTTP, logging, status pages, the sync tree, acknowledgements, Golay and Clover coding.
