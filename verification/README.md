# Verified models of the kboot compressors, package tables and boot-header tool

This project models four parts of the kboot tree in Dafny and proves what they are for.

* **gzip** (`busybox/archival/gzip.c`): the deflate compressor, from reading the input to the last byte of the
  file. The decoder is not part of the tree, so it is written here as a specification from RFC 1951 (sections 3.1.1
  and 3.2.2 to 3.2.7) and RFC 1952 (section 2.3). The result that everything leads to is `Gzip.Pack`: for every
  input and every way the reads chop it up, decoding the file gives back exactly the bytes read. Beside it stands
  `Deflate.DeflateAll`: the tokens are those of lazy matching, said of the input alone.
* **lzop** (`lzo1x_c.c`, `lzo1x_9x.c`, `lzo1x_d.c`, `lzop.c`): the LZO1X token grammar, both encoders, the decoder, the
  in-place stream optimizer, the checksum and the block layout. `LzopStream.RoundTripFile` puts them
  together: for every input, method, dictionary and choice of checksums, and whatever parses LZO1X-999 makes within its
  tests, the run of blocks that is written, up to the end mark, comes back when each block is decompressed in place in
  one buffer of exactly the size the source gives it.
* **dpkg** (`dpkg.c`): the version order, against section 5.6.12 of the Debian Policy Manual, and the three hash
  tables with double hashing, whose probes visit every slot because the table sizes are prime.
* **flash_stitched** (`osip_utils.c`, `manage_device.c`, `update_osip.c`): the boot header, its backup, and the
  commands that change them, as a state machine over the first block of the device.

Code that works by changing things step by step is modelled by methods on arrays and objects, and every such method
is proved against functions on values (`Sent`, `Stream`, `Items`, `Do`, ...); the laws are lemmas about those functions.

## How the modules fit together

* `Bits`, `BitWriter`: bit strings and the 16-bit bit buffer.
* `Canonical`, `Inflate`, `Lz77`, `DeflateTables`, `DeflateFormat`, `DynamicHeader`, `BlockFormat`: the format and its decoder,
  with a round trip for every layer.
* `Sums`, `HuffmanHeap`, `HuffmanOptimality`, `HuffmanTree`, `HuffmanForest`, `HuffmanTies`, `HuffmanBuild`, `HuffmanCollect`,
  `HuffmanLengths`, `HuffmanBitlen`, `HuffmanShortest`, `HuffmanCodes`, `HuffmanTrees`: build_tree and what it calls.
* `TreeRle`, `TreeSend`, `BlockCost`, `BlockTrees`, `BuildBlockTrees`, `StaticTables`, `TokenBuffer`, `CompressBlock`,
  `BlockEncoder`: one block, up to flush_block.
* `RollingHash`, `HashChains`, `SlidingWindow`, `LazyMatch`, `WindowMatch`, `BlockStream`, `Deflate`, `Crc32`, `Gzip`: the
  matcher and the whole file. `LazyMatch` says which matches lazy matching takes as a law on the input alone, and
  `WindowMatch` that the searches in the window obey it.
* `LzoFormat`, `LzoDecode`, `LzoDecodes`, `LzoAccepts`, `LzoDecompress`: the LZO1X grammar, the decoder as a step function,
  that it decodes every well-formed stream and accepts nothing else, and the decoder on memory.
* `LzoEncode`, `LzoCompress`, `Lzo999`, `LzoSize`, `LzoRewrite`, `LzoOptimize`, `Adler32`, `LzopBlocks`, `LzopStream`: everything that writes, and
  the block loops.
* `DebVersion`, `DebOrder`, `Probing`, `ProbeTables`, `DpkgTables`: versions and tables.
* `OsipFormat`, `OsipCommands`, `OsipRuns`, `OsipEffects`, `OsipDevice`, `OsipTool`: the boot header.

## Where the code differs from its comments

* `version_compare` is said to return -1, 0 or 1; it returns any difference, and only its sign means anything. The
  model keeps the differences and speaks about signs; `DebOrder.LettersApart` shows a result of -2.
* longest_match asserts that there is enough lookahead in the window. Before the end of the input there is
  (`Deflate.SuppliedIsInside`). After it there need not be: `SlidingWindow.StaysInside` says exactly when the search stays
  inside the window, and `SlidingWindow.ZerosReachBehind` shows a state in which it looks behind it.
* The decoder that lzop uses is the one called safe, which is meant not to read behind its input. It does, on
  malformed input: the bytes of a distance behind the head of a match are read without asking for them.
  `LzoDecode.ReachesPast` gives the exact steps and the bound of six bytes, `LzoDecode.PastFails` says that decoding
  then ends with an error, `LzoDecode.OkStaysWithin` that it never happens on input that decodes, and
  `LzoDecode.LooksBehind` shows it on the input of one byte 17.
* A header whose size field does not reach the checksum byte is written with a checksum that does not make it add
  up to zero. `OsipFormat.SealIsSound` says exactly when it does, and `OsipFormat.ShortHeaderFails` shows one.
* The position of an image is computed in 32 bits, so the block number decides only with its low 23 bits, and is given
  to a seek, which is taken to be a signed 32-bit one here. `OsipRuns.PastFirstBlock` says exactly which block numbers
  keep images out of the first block, `OsipRuns.FlashedOverHeaders` what happens for the others, and `OsipRuns.FarDiskLost` shows a
  device that loses its headers.
* An update with no backup in force and no given field still rewrites the header; `OsipRuns.UpdateNothing` says exactly
  when that changes nothing, and `OsipRuns.EmptyUpdateChanges` shows a device that it changes.
* A search in a hash table ends exactly if some slot is free or holds what is looked for
  (`ProbeTables.StopsExactlyIf`); in a full table the source has no other way out.
* An entry of the status file without a Package field keeps name number 0, and is stored under whatever string has
  that number. If none will have, the source reads through a null pointer: `DpkgTables.Globals.FillPackage` says exactly
  for which tables and entries, and `DpkgTables.NamelessEntry` shows that an entry at
  the start of a file that gives nothing but the version "1" is one.

## Model

| member | source | states |
|---|---|---|
| `Bits.BiReverse` | busybox/archival/gzip.c:461-471 | the result fits `len` bits and, read low bit first, is the code read high bit first |
| `BitWriter.OrShifted` | busybox/archival/gzip.c:433-447 | or-ing a shifted value into a buffer whose bits above are free adds it, modulo 2^16 |
| `BitWriter.Output.FlushOutbuf` | busybox/archival/gzip.c:354-361 | everything buffered is written out, in order |
| `BitWriter.Output.Put16` | busybox/archival/gzip.c:374-380 | appends the two bytes of a word, low byte first |
| `BitWriter.Output.SendBits` | busybox/archival/gzip.c:433-453 | appends exactly the low bits of the value, low bit first, to the stream sent so far, also across the 16-bit buffer |
| `BitWriter.Output.BiWindup` | busybox/archival/gzip.c:477-489 | pads the stream with zero bits to a whole byte and leaves no bits behind |
| `BitWriter.Output.CopyBlock` | busybox/archival/gzip.c:496-513 | pads, then appends the length, its complement and the bytes |
| `Canonical.CodeFits` | busybox/archival/gzip.c:1146-1179 | for lengths that are not oversubscribed every canonical code fits its length |
| `Canonical.PrefixFree` | busybox/archival/gzip.c:1146-1179 | no code is a prefix of the code of another symbol |
| `Canonical.DecodeCode` | busybox/archival/gzip.c:1146-1179 | the decoder of section 3.2.2 of RFC 1951 reads the symbol back wherever its code stands |
| `Canonical.Consecutive` | busybox/archival/gzip.c:1146-1179 | codes of one length are consecutive in the order of their symbols |
| `Canonical.Example` | busybox/archival/gzip.c:1146-1179 | the codes of the example in section 3.2.2 of RFC 1951 |
| `HuffmanHeap.Heap.PqDownHeap` | busybox/archival/gzip.c:1015-1037 | restores the heap from a position on and permutes its nodes |
| `HuffmanHeap.RootIsLeast` | busybox/archival/gzip.c:1009-1037 | the root of a heap has the least key, where keys order by frequency and then by depth |
| `HuffmanHeap.Heap.PqRemove` | busybox/archival/gzip.c:1197-1202 | removes a least node; the others stay and form a heap |
| `HuffmanHeap.Heap.TakeTwo` | busybox/archival/gzip.c:1255-1260 | takes the two least nodes in order and lists them before those taken earlier |
| `HuffmanHeap.Heap.PqReplace` | busybox/archival/gzip.c:1272-1274 | the new node joins the others and the heap is restored |
| `HuffmanOptimality.HuffmanIsLowerBound` | busybox/archival/gzip.c:1255-1277 | no lengths that satisfy the Kraft inequality cost less than joining the two least weights over and over |
| `HuffmanOptimality.PrefixCodeKraft` | busybox/archival/gzip.c:1255-1277 | every prefix code satisfies the Kraft inequality |
| `HuffmanOptimality.HuffmanBeatsPrefixCodes` | busybox/archival/gzip.c:1255-1277 | so no prefix code for the same weights is cheaper |
| `HuffmanForest.JoinOfLeast` | busybox/archival/gzip.c:1255-1277 | joining the two least frequent roots leaves the cost still to come as the definition of Huffman cost says |
| `HuffmanBuild.JoinTwo` | busybox/archival/gzip.c:1255-1276 | one round keeps the forest: every root is the tree of its symbols, fathers come before sons, the price so far is paid |
| `HuffmanTies.RuledStep` | busybox/archival/gzip.c:1255-1276 | it joins the first two of the roots there are, by frequency and among equals by depth, and the depth kept for the new node is that of its tree |
| `HuffmanTies.DepthByteIs` | busybox/archival/gzip.c:1264-1264 | the byte kept is the depth of every tree of depth below 256 |
| `HuffmanBuild.Combine` | busybox/archival/gzip.c:1252-1278 | ends with one tree over exactly the counted symbols, each of whose inner nodes joined the first two roots by frequency and depth, whose node list has every father before its sons and whose inner frequencies add up to the Huffman cost |
| `HuffmanCollect.ScanFrequencies` | busybox/archival/gzip.c:1213-1227 | the heap array holds exactly the counted symbols, and the largest is returned |
| `HuffmanCollect.ForceTwoCodes` | busybox/archival/gzip.c:1229-1244 | at least two symbols, every forced one was unused, and the totals are lowered by what it will cost |
| `HuffmanCollect.MakeHeap` | busybox/archival/gzip.c:1246-1250 | a heap of the same symbols |
| `HuffmanTree.KraftOfClamped` | busybox/archival/gzip.c:1073-1081 | clamping lengths raises the Kraft sum by half the number of overflowing nodes |
| `HuffmanTree.LeavesAtMax` | busybox/archival/gzip.c:1102-1114 | if nodes overflow, more than half as many leaves have the maximal length, so the repair has leaves to move |
| `HuffmanTree.OverIsDeep` | busybox/archival/gzip.c:1073-1081 | nodes overflow exactly if the tree is deeper than the limit |
| `HuffmanTree.CostOfTree` | busybox/archival/gzip.c:1073-1095 | without overflow the cost of the leaves is the sum of the inner frequencies |
| `HuffmanBitlen.FirstPass` | busybox/archival/gzip.c:1065-1095 | every node is one longer than its father but no longer than the limit, the counts and the overflow are exact, and the totals grow by the exact cost |
| `HuffmanLengths.MoveLeafEffect` | busybox/archival/gzip.c:1103-1113 | one repair step keeps the number of leaves and lowers the Kraft sum by one unit |
| `HuffmanLengths.SomeShorterLeaf` | busybox/archival/gzip.c:1104-1106 | with too large a Kraft sum and few enough leaves there is a shorter leaf, so the search ends |
| `HuffmanBitlen.RepairCounts` | busybox/archival/gzip.c:1102-1114 | the loop ends with a Kraft sum of exactly one, the same number of leaves and no negative count |
| `HuffmanBitlen.ReassignLengths` | busybox/archival/gzip.c:1116-1134 | the lengths get exactly the repaired counts, within 1 to the limit, never fall along the list of nodes, which starts with the most frequent, and the total changes by the exact difference in cost |
| `HuffmanShortest.CheapestIsShortest` | busybox/archival/gzip.c:1255-1277 | lengths that cost what the Huffman tree does are beaten by no lengths that meet the Kraft inequality, however long |
| `HuffmanShortest.CheapestIsFrequentShort` | busybox/archival/gzip.c:1073-1095 | in lengths of that cost a more frequent symbol never has the longer code, because exchanging the two would save bits |
| `HuffmanCodes.GenBitlen` | busybox/archival/gzip.c:1050-1135 | for at most 2^max symbols: a complete set of lengths within the limit in which a more frequent symbol never has the longer code, their exact counts, exact totals, and the Huffman cost if the tree is not too deep |
| `HuffmanTrees.FirstCodes` | busybox/archival/gzip.c:1153-1158 | the first code of each length is that of section 3.2.2 of RFC 1951 |
| `HuffmanTrees.GenCodes` | busybox/archival/gzip.c:1146-1179 | every symbol gets its canonical code, bit-reversed, within its length |
| `HuffmanTrees.ForcedBits` | busybox/archival/gzip.c:1234-1243 | the bits of forced codes are exactly what was subtracted for them |
| `HuffmanTrees.BuildTree` | busybox/archival/gzip.c:1204-1287 | a complete canonical code for all counted symbols, in which a more frequent one never has the longer code; totals that are the exact bits of the tokens counted; and, if the Huffman tree is not deeper than the limit, no prefix code and no lengths that meet the Kraft inequality are shorter |
| `TreeRle.ItemsStandFor` | busybox/archival/gzip.c:1349-1400 | the items for any code lengths expand to those lengths, also from the middle of a run |
| `TreeRle.TreeItemsStandFor` | busybox/archival/gzip.c:1349-1400 | the items of a tree expand to its code lengths, after whatever came before |
| `TreeRle.RunsAreRepeated` | busybox/archival/gzip.c:1349-1400 | every run of equal lengths that can be repeated is: zeros by one item, other lengths by a length and one item, or one item behind the same length |
| `TreeRle.ItemsRoundTrip` | busybox/archival/gzip.c:1349-1400 | the decoder of section 3.2.7 of RFC 1951 reads the items back as those lengths |
| `TreeSend.ScanTree` | busybox/archival/gzip.c:1296-1342 | adds to every symbol exactly the number of times it occurs in the items, and sets the guard |
| `TreeSend.SendTree` | busybox/archival/gzip.c:1349-1400 | sends exactly the bits of those same items |
| `TreeSend.SendCode` | busybox/archival/gzip.c:961-961 | sends the canonical code of a symbol |
| `TreeSend.SendRun` | busybox/archival/gzip.c:1366-1386 | sends the items of one run |
| `DynamicHeader.HeaderRoundTrip` | busybox/archival/gzip.c:1442-1464 | the decoder reads both trees back from the head of a dynamic block |
| `BuildBlockTrees.PlainLengthNeeded` | busybox/archival/gzip.c:1421-1428 | a code length code other than the three repeat codes is always used, so the search for the last one ends in range |
| `BuildBlockTrees.LastBlIndex` | busybox/archival/gzip.c:1421-1428 | the last code length code in the order of the format that has a length |
| `BuildBlockTrees.ScanTrees` | busybox/archival/gzip.c:1411-1413 | the frequencies are exactly those of the items of both trees |
| `BuildBlockTrees.BuildBlTree` | busybox/archival/gzip.c:1407-1434 | the code covers all items, and the total grows by the exact bits of the head |
| `BuildBlockTrees.SendAllTrees` | busybox/archival/gzip.c:1442-1464 | sends exactly the head of the dynamic block |
| `BlockCost.TokensCost` | busybox/archival/gzip.c:1527-1567 | the bits of tokens and end code are exactly the sum of frequency times length and extra bits |
| `BlockCost.ItemsCost` | busybox/archival/gzip.c:1415-1430 | the same for the items of the trees |
| `BlockTrees.FixedCost` | busybox/archival/gzip.c:1638-1641 | the exact length of the fixed block |
| `BlockTrees.DynamicCost` | busybox/archival/gzip.c:1642-1647 | the exact length of the dynamic block |
| `BlockTrees.ShortestBody` | busybox/archival/gzip.c:1585-1593 | with the shortest lengths no other codes for the tokens, however long, send them in fewer bits |
| `DeflateFormat.TokensRoundTrip` | busybox/archival/gzip.c:1527-1567 | tokens and the end code are decoded back wherever they stand |
| `BlockFormat.StoredRoundTrip` | busybox/archival/gzip.c:1624-1636 | a stored block decodes to its bytes |
| `BlockFormat.FixedRoundTrip` | busybox/archival/gzip.c:1638-1641 | a fixed block decodes to what its tokens expand to |
| `BlockFormat.DynamicRoundTrip` | busybox/archival/gzip.c:1642-1647 | a dynamic block decodes to what its tokens expand to |
| `DeflateTables.LengthCodeFits` | busybox/archival/gzip.c:760-763 | the code of a length covers it with its extra bits |
| `DeflateTables.DistCodeFits` | busybox/archival/gzip.c:766-769 | the code of a distance covers it with its extra bits |
| `DeflateTables.TablesByRule` | busybox/archival/gzip.c:760-769 | the tables of extra bits by rule |
| `Inflate.OrderOutwards` | busybox/archival/gzip.c:776-777 | the order of the code length codes by rule |
| `StaticTables.InitTables` | busybox/archival/gzip.c:1887-1918 | the tables agree with the codes of section 3.2.5 of RFC 1951 for all lengths and all distances up to 32768 |
| `StaticTables.InitStaticLiterals` | busybox/archival/gzip.c:1920-1946 | the fixed literal/length code of section 3.2.6 of RFC 1951 |
| `StaticTables.InitStaticDistances` | busybox/archival/gzip.c:1948-1952 | the fixed distance code |
| `TokenBuffer.Tokens.PushFlag` | busybox/archival/gzip.c:1488-1498 | the flags of all tokens stand in the flag bytes, eight to a byte |
| `TokenBuffer.Tokens.Tally` | busybox/archival/gzip.c:1471-1522 | the three buffers hold exactly the tokens, the frequencies are theirs, and the result is the rule for ending a block |
| `TokenBuffer.FlushMeans` | busybox/archival/gzip.c:1500-1522 | the rule in numbers: at 8191 tokens, or at every 4096th if fewer than half are matches and eight bits a token, and five and the extra bits for each distance, come to less than half the input |
| `CompressBlock.Compress` | busybox/archival/gzip.c:1527-1567 | sends exactly the bits of the tokens kept in the buffers and of the end code |
| `BlockEncoder.Encoder.InitBlock` | busybox/archival/gzip.c:982-999 | an empty block: no tokens, frequencies of zero but for the end code |
| `BlockEncoder.BuildTokenTrees` | busybox/archival/gzip.c:1585-1593 | trees for all tokens, grown from their frequencies and the shortest if not too deep, and totals that are the exact bits of both encodings |
| `BlockEncoder.ChosenEncodes` | busybox/archival/gzip.c:1578-1660 | whichever encoding is chosen, the decoder reads exactly the bytes the block covers |
| `BlockEncoder.ChosenKind` | busybox/archival/gzip.c:1604-1648 | the head of the block says which encoding it is, and which one that is, by the three lengths in bytes and whether the data is there |
| `BlockEncoder.ChosenIsShort` | busybox/archival/gzip.c:1600-1648 | the block is never more than ten bits longer than the whole bytes of the fixed block, of the dynamic block that was planned, and of the stored block if the bytes are still there |
| `BlockEncoder.ChosenIsBest` | busybox/archival/gzip.c:1578-1648 | if neither planned tree is deeper than 15, the same bound holds against every other pair of codes for the tokens that meets the Kraft inequality, sent behind the planned head |
| `BlockEncoder.CountStored` | busybox/archival/gzip.c:1632-1636 | the 32-bit counter stays equal to the bits sent over a stored block |
| `BlockEncoder.WriteBlock` | busybox/archival/gzip.c:1600-1648 | appends the chosen encoding and keeps the counter equal to the bits sent |
| `BlockEncoder.FlushBlock` | busybox/archival/gzip.c:1578-1660 | appends the chosen encoding of the tokens, with the plan made for a dynamic block, pads after the last block, keeps the counter equal to the bits sent and starts a new block |
| `RollingHash.PrimedUpdate` | busybox/archival/gzip.c:1669-1704 | a key that holds two bytes becomes the key of three, whatever it held before |
| `RollingHash.HashDecides` | busybox/archival/gzip.c:628-634 | strings with the same key and the same two first bytes have the same third byte |
| `SlidingWindow.Input.Read` | busybox/archival/gzip.c:413-426 | the next bytes of the input, no more than asked, and the checksum and size of all read so far |
| `SlidingWindow.Window.InsertString` | busybox/archival/gzip.c:1693-1704 | the string returned is the latest one before it with the same key, and every chain still starts at the latest string with its key and links each string to the latest one before it |
| `SlidingWindow.Window.Slide` | busybox/archival/gzip.c:538-562 | the window moves down by its half, and chains and links still lead to the latest string with the same key that remains |
| `SlidingWindow.Window.FillWindow` | busybox/archival/gzip.c:524-572 | the window holds the latest bytes of the input at the same absolute positions, with all chains intact |
| `HashChains.VisitedAll` | busybox/archival/gzip.c:590-660 | every string in reach with the same key is tried if fewer such strings are nearer than the chain is followed |
| `HashChains.VisitedMeans` | busybox/archival/gzip.c:590-660 | only such strings are |
| `SlidingWindow.Window.Compare` | busybox/archival/gzip.c:634-645 | the exact length of the match, counted eight bytes at a time |
| `SlidingWindow.Window.TryMatch` | busybox/archival/gzip.c:618-645 | a candidate that fails the quick tests is not better, and one that passes is a true match although byte 2 is not compared |
| `SlidingWindow.Window.LongestMatch` | busybox/archival/gzip.c:588-660 | the best length over the chain as far as it is followed, with a match start on that chain within MAX_DIST that has exactly that length and is the nearest of those; the last byte looked at is the one behind that match |
| `SlidingWindow.StaysInside` | busybox/archival/gzip.c:609-645 | the search stays inside the window exactly if neither the length to beat nor a match of a string on the chain reaches its end |
| `SlidingWindow.EnoughIsInside` | busybox/archival/gzip.c:614-614 | which holds where the source asserts its lookahead |
| `SlidingWindow.ZerosReachBehind` | busybox/archival/gzip.c:609-645 | with 65400 zero bytes read and ten left it does not hold, whatever lies behind the window |
| `BlockStream.DecodedBlock` | busybox/archival/gzip.c:1578-1660 | a block after a decodable stream extends what is decoded |
| `BlockStream.AddToken` | busybox/archival/gzip.c:1471-1522 | a token for the next input keeps everything up to it encoded |
| `BlockStream.EndBlock` | busybox/archival/gzip.c:1682-1691 | the waiting tokens become a finished block |
| `BlockStream.EndLastBlock` | busybox/archival/gzip.c:1805-1808 | whatever follows, the stream decodes to all input |
| `WindowMatch.CandidateTried` | busybox/archival/gzip.c:1727-1734 | a string of the input with the same key, in reach and near enough on its chain is tried in the window, wherever the window has moved |
| `WindowMatch.SearchFound` | busybox/archival/gzip.c:1727-1746 | the length that longest_match gives, cut to the lookahead and with three bytes that are too far away dropped, is what a search on the input should find |
| `WindowMatch.NothingFound` | busybox/archival/gzip.c:1727-1729 | where there is no search there is nothing longer to find |
| `LazyMatch.CandidateInNumbers` | busybox/archival/gzip.c:205-222 | which strings are on the chain in reach, in numbers |
| `LazyMatch.FoundMore` | busybox/archival/gzip.c:1727-1746 | what is found with the full lookahead is the same whatever is read later |
| `Deflate.FindMatch` | busybox/archival/gzip.c:1727-1746 | what is found, said of the input alone: no string on the chain in reach, within the number of tries, has more bytes in common than the length found or the length to beat, but for three bytes that are too far away or at the very end; a greater length is that of such a string, is a true repetition cut to the input, and of those as long it is the nearest |
| `Deflate.SuppliedIsInside` | busybox/archival/gzip.c:614-614 | before the end of the input is known the assertion on the lookahead holds, and the search stays inside the window |
| `Deflate.SkipMatch` | busybox/archival/gzip.c:1754-1770 | moves to the end of the match with every string in it inserted |
| `Deflate.EmitMatch` | busybox/archival/gzip.c:1750-1774 | exactly the match of the position before goes out and the input up to its end is encoded |
| `Deflate.EmitLiteral` | busybox/archival/gzip.c:1775-1786 | exactly the byte of the position before goes out and the input up to it is encoded |
| `Deflate.Step` | busybox/archival/gzip.c:1715-1794 | the lazy rule: a match that waits goes out if no string on the chain of the next byte has a longer one, and otherwise its first byte, before a longer match that is found there; all input before the waiting byte stays encoded |
| `Deflate.DeflateAll` | busybox/archival/gzip.c:1706-1809 | all tokens follow the lazy rule from first to last, and replayed give exactly the bytes read, with lengths 3 to 258 and distances 1 to MAX_DIST; and whatever follows, the blocks decode to those bytes |
| `LazyMatch.RuleAt` | busybox/archival/gzip.c:1715-1794 | of tokens that follow the rule: a match is as long as any at its place and no longer one starts a byte later; a byte alone starts no match that may be used, or a longer one starts behind it |
| `LazyMatch.SameBytes` | busybox/archival/gzip.c:1715-1794 | of equal bytes only the first two and the last three can go out by themselves |
| `Deflate.LmInit` | busybox/archival/gzip.c:1828-1864 | the window holds the first bytes and the hash key is started |
| `Crc32.UpdCrc` | busybox/archival/gzip.c:396-405 | feeds the bytes to the checksum register |
| `Crc32.RegisterConcat` | busybox/archival/gzip.c:396-405 | the register can be fed piece by piece |
| `Crc32.FillTable` | busybox/libbb/crc32.c:21-42 | each entry is its number divided by the polynomial for eight bits |
| `Crc32.RegisterIsRemainder` | busybox/archival/gzip.c:396-405 | with that table the register is the remainder of a division bit by bit |
| `Crc32.CrcOfOnes` | busybox/archival/gzip.c:1990-1990 | the checksums of the empty input, of four bytes 0xff, and of these and a byte 0x80 |
| `Gzip.Zip` | busybox/archival/gzip.c:1964-1994 | the file written, read field by field as in section 2.3 of RFC 1952: the magic bytes, method and flags, the time stamp in 32 bits, the extra flags 2 and the system 3, blocks that give the bytes read, and behind them the complement of the remainder and then the length modulo 2^32, both low byte first, and nothing more |
| `Gzip.Pack` | busybox/archival/gzip.c:1964-1994 | for every input, time stamp and chopping of reads, the file is read back as exactly these fields and the bytes read, which are all unless a read gave nothing |
| `Gzip.HeaderFields` | busybox/archival/gzip.c:1974-1985 | the ten bytes in front, one by one |
| `LzoDecodes.InstrDecodes` | busybox/archival/lzo1x_d.c:74-388 | each instruction allowed in a state is decoded from the label for that state to the label for the next, copying exactly its bytes |
| `LzoDecodes.RunDecodes` | busybox/archival/lzo1x_d.c:83-135 | a literal run of any length is decoded |
| `LzoDecodes.M1Decodes` | busybox/archival/lzo1x_d.c:300-325 | the short form of a match of two bytes |
| `LzoDecodes.MXDecodes` | busybox/archival/lzo1x_d.c:137-165 | the form of a match of three bytes that stands only behind a literal run |
| `LzoDecodes.M3Decodes` | busybox/archival/lzo1x_d.c:218-252 | an M3 match of any length |
| `LzoDecodes.M4Decodes` | busybox/archival/lzo1x_d.c:253-299 | an M4 match of any length |
| `LzoDecodes.StreamDecodes` | busybox/archival/lzo1x_d.c:74-401 | the rest of a well-formed stream from any label, and that the output stays behind the input if there is room |
| `LzoDecodes.FileDecodes` | busybox/archival/lzo1x_d.c:33-401 | every well-formed stream decodes with LZO_E_OK to exactly the bytes it stands for |
| `LzoAccepts.Accepts` | busybox/archival/lzo1x_d.c:33-418 | the decoder ends with LZO_E_OK and these bytes exactly if the input is a well-formed stream with an end mark behind it whose instructions give these bytes, and they fit |
| `LzoAccepts.HeadIs` | busybox/archival/lzo1x_d.c:170-325 | whatever bytes are decoded as the head of a match are the bytes of a match of that form, length and distance |
| `LzoDecode.StepSane` | busybox/archival/lzo1x_d.c:74-401 | every step moves on, so the decoder ends on every input |
| `LzoDecode.ReachesPast` | busybox/archival/lzo1x_d.c:137-388 | a step reads behind the input exactly if it is at one of these labels, positions and head bytes, and never more than six bytes |
| `LzoDecode.PastFails` | busybox/archival/lzo1x_d.c:137-418 | decoding that reads behind the input, or has moved behind it, ends with an error |
| `LzoDecode.WithinSlack` | busybox/archival/lzo1x_d.c:74-401 | so on any input six bytes behind it are enough |
| `LzoDecode.OkStaysWithin` | busybox/archival/lzo1x_d.c:74-401 | input that decodes with LZO_E_OK is decoded without reading behind it |
| `LzoDecode.LooksBehind` | busybox/archival/lzo1x_d.c:253-299 | the input of the single byte 17 makes the decoder read two bytes behind it |
| `LzoDecompress.Decompress` | busybox/archival/lzo1x_d.c:33-418 | if every byte it reads is in memory, the code and the bytes are those of the step function, nothing beyond the output is written, and input and output may overlap where there is room |
| `LzoDecompress.CopyBack` | busybox/archival/lzo1x_d.c:354-358 | a match may overlap itself |
| `LzoDecompress.StepOn` | busybox/archival/lzo1x_d.c:74-388 | every label does what the step function says, on memory that may hold input and output |
| `LzoSize.SizeBound` | busybox/archival/lzop.c:596-596 | a stream, or any suffix of one, in which no match takes more bytes than it gives and a match right behind a run takes fewer exceeds its data by at most a sixteenth and two bytes |
| `LzoSize.RoomInPlace` | busybox/archival/lzop.c:769-794 | with the stream at the end of a buffer of MAX_COMPRESSED_SIZE the output never reaches a byte still to be read, the one two back included |
| `LzoSize.DecompressInPlace` | busybox/archival/lzop.c:769-794 | decoding in that buffer, with nothing behind it, gives the data |
| `LzoEncode.PutLong` | busybox/archival/lzo1x_c.c:139-149 | a long count in zero bytes and a last byte |
| `LzoEncode.PutShort` | busybox/archival/lzo1x_c.c:133-136 | up to three literals: their number goes into the match before them, which stays the same match |
| `LzoEncode.PutRun` | busybox/archival/lzo1x_c.c:137-150 | a run of four or more literals |
| `LzoEncode.PutMatch` | busybox/archival/lzo1x_c.c:153-237 | a match in the form its length and distance call for |
| `LzoEncode.MatchGains` | busybox/archival/lzo1x_c.c:58-66 | every match that do_compress takes gains at least a byte |
| `LzoCompress.FindMatch` | busybox/archival/lzo1x_c.c:52-91 | the entry to update is the second one exactly if the first points to a usable string that is neither near nor agrees in its fourth byte, and a match is found exactly if the entry points within the input and reach to such a string that repeats the first three bytes |
| `LzoCompress.ExtendMatch` | busybox/archival/lzo1x_c.c:153-201 | the match is as long as the bytes repeat |
| `LzoCompress.EmitMatch` | busybox/archival/lzo1x_c.c:126-241 | literals and match extend the stream for exactly the input up to the end of the match |
| `LzoCompress.DoCompress` | busybox/archival/lzo1x_c.c:30-248 | exactly the instructions that a scan from the fourth byte on gives, setting one dictionary entry at each position; a well-formed stream for all but the last bytes, within the size bound |
| `LzoCompress.StoreLast` | busybox/archival/lzo1x_c.c:267-288 | the last literals, in the special form at the start of the stream |
| `LzoCompress.Compress` | busybox/archival/lzo1x_c.c:253-296 | for every block and every dictionary exactly those instructions and the last literals: a well-formed stream for it of at most MAX_COMPRESSED_SIZE |
| `LzoCompress.FirstEntryTaken` | busybox/archival/lzo1x_c.c:52-64 | a position that the first entry holds is taken if it is in reach and its four bytes agree |
| `LzoCompress.SameBytes` | busybox/archival/lzo1x_c.c:46-245 | nineteen or more equal bytes become a run of four or five and one match, whatever the dictionary holds |
| `LzoCompress.SameBytesShrink` | busybox/archival/lzo1x_c.c:253-296 | so their stream is shorter than they are |
| `LzoCompress.IndexOfSmall` | busybox/archival/lzo1x_1.c:30-30 | the first index in numbers, for bytes below 32 |
| `LzoCompress.SecondIndex` | busybox/archival/lzo1x_1.c:31-31 | the second index of the first entry, for both dictionary sizes |
| `LzoCompress.RoundTrip` | busybox/archival/lzo1x_c.c:253-296 | the decoder turns the stream back into the block |
| `Lzo999.LenOfCodedMatch` | busybox/archival/lzo1x_9x.c:614-641 | the exact number of bytes that code_match writes, or -1 |
| `Lzo999.Coder.CodeMatch` | busybox/archival/lzo1x_9x.c:502-567 | the bytes of the match in the form its length, distance and the literals before it call for |
| `Lzo999.Coder.CodeRun` | busybox/archival/lzo1x_9x.c:570-608 | the bytes of the literals, and their number kept for the next match |
| `Lzo999.CodeAllGood` | busybox/archival/lzo1x_9x.c:502-608 | every parse that the assertions allow is coded by a well-formed stream for exactly the data |
| `Lzo999.MatchesCoded` | busybox/archival/lzo1x_9x.c:502-608 | the matches of the parse are coded as they are, in their order, and no others |
| `Lzo999.KindIsShortest` | busybox/archival/lzo1x_9x.c:502-567 | no form that may stand there codes a match in fewer bytes |
| `Lzo999.Encode` | busybox/archival/lzo1x_9x.c:502-608 | and written out with the end marker; the decoder turns it back into the data, and it keeps the size bound if the parse passes the test for matches of three bytes |
| `Lzo999.PieceThrifty` | busybox/archival/lzo1x_9x.c:775-787 | a match that passes that test takes no more bytes than it gives, and fewer right behind a run |
| `LzoRewrite.MoreTail` | busybox/archival/lzop.c:158-167 | rewrite one for M1 and for M3/M4: a short match between two matches becomes literals of the one before, with the same meaning |
| `LzoRewrite.JoinRun` | busybox/archival/lzop.c:168-188 | rewrite two for M1 and for M3/M4: a short match before a run joins it, with the same meaning |
| `LzoRewrite.JoinRuns` | busybox/archival/lzop.c:209-224 | the rewrite for M2: a match of three bytes between two runs joins them, with the same meaning |
| `LzoRewrite.MoreTailBytes` | busybox/archival/lzop.c:257-266 | the bytes rewritten in place are those of the new stream, which has the same length |
| `LzoRewrite.JoinRunBytes` | busybox/archival/lzop.c:267-289 | the same, with the literals moved up by a byte |
| `LzoRewrite.JoinRunsBytes` | busybox/archival/lzop.c:209-224 | the same |
| `LzoRewrite.BecomesLiterals` | busybox/archival/lzop.c:158-167 | what the pass makes of a short match between two matches |
| `LzoRewrite.JoinsRun` | busybox/archival/lzop.c:168-188 | what it makes of a short match before a run that stays short |
| `LzoRewrite.JoinsRuns` | busybox/archival/lzop.c:209-224 | what it makes of an M2 match of three bytes between runs that stay short |
| `LzoRewrite.Stays` | busybox/archival/lzop.c:291-302 | literals, matches with literals behind them and longer matches stay |
| `LzoRewrite.RewriteShrinks` | busybox/archival/lzop.c:78-325 | the pass never makes more instructions |
| `LzoRewrite.PassSample` | busybox/archival/lzop.c:209-224 | two runs of four literals with a match of three bytes between them become one run of eleven |
| `LzoOptimize.StepM1` | busybox/archival/lzop.c:149-192 | an M1 match with the rewrite that applies keeps stream and data, and goes the way of the pass |
| `LzoOptimize.StepM2` | busybox/archival/lzop.c:194-224 | an M2 match with the rewrite that applies keeps stream and data, and goes the way of the pass |
| `LzoOptimize.StepM3` | busybox/archival/lzop.c:225-290 | an M3 or M4 match with the rewrite that applies keeps stream and data, and goes the way of the pass |
| `LzoOptimize.Optimize` | busybox/archival/lzop.c:78-325 | on every well-formed stream: exactly the instructions that the pass of rewrites gives, a well-formed stream of the same length in the same place that stands for the same data, decodes back to it and keeps the size bound, and the data put out |
| `Adler32.AddChunk` | busybox/archival/lzop.c:452-461 | 5552 bytes never overflow 32 bits, and give the sums of section 2.2 of RFC 1950 |
| `Adler32.LzoAdler32` | busybox/archival/lzop.c:436-463 | the checksum of section 2.2 of RFC 1950 for every buffer and every valid start |
| `Adler32.BaseIsPrime` | busybox/archival/lzop.c:440-440 | 65521 is the largest prime below 65536 |
| `Adler32.NmaxIsLargest` | busybox/archival/lzop.c:441-443 | 5552 is the largest number of bytes for which the bound fits 32 bits |
| `Adler32.ChecksumOfA` | busybox/archival/lzop.c:436-463 | the checksum of "a" |
| `Adler32.Composes` | busybox/archival/lzop.c:436-463 | a checksum continued over a second buffer is that of both |
| `LzopBlocks.CompressBlock` | busybox/archival/lzop.c:621-689 | the block of LZO1X-1 as written, whatever dictionary and buffer held: the data itself exactly if the stream that the encoder makes of it is no shorter, else that stream, with the checksum of the data |
| `LzopBlocks.CompressBlock999` | busybox/archival/lzop.c:637-658 | the same for LZO1X-999: the data itself exactly if the coded parse is no shorter, else its stream after the pass of rewrites |
| `LzopBlocks.UnpackBlock` | busybox/archival/lzop.c:767-802 | the bytes read into the end of a buffer, whatever it held, give the data back |
| `LzopBlocks.DecompressBlock` | busybox/archival/lzop.c:722-817 | the block read into the end of a buffer of exactly the given size comes back with the right length and checksum |
| `LzopBlocks.RoundTripBlock` | busybox/archival/lzop.c:601-821 | whatever the dictionary holds, a block compressed and decompressed in place comes back |
| `LzopBlocks.RoundTripBlock999` | busybox/archival/lzop.c:601-821 | the same for LZO1X-999 and the optimizer, for every parse that passes the tests of the encoder |
| `LzopStream.WriteBlock` | busybox/archival/lzop.c:655-688 | the words and bytes of a block in the order of the format, with the checksums that the flags ask for |
| `LzopStream.WrittenReads` | busybox/archival/lzop.c:627-688 | the fields read off the file in order, high byte first: the length of the data, the length of the bytes, the checksums that the flags ask for, those of the bytes only if they are compressed, and the bytes |
| `LzopStream.CompressFile` | busybox/archival/lzop.c:601-695 | all data is written as blocks, each full but the last and each made by the method as one block is, and the end mark, with one dictionary and one buffer for all |
| `LzopStream.ReadSums` | busybox/archival/lzop.c:754-766 | the checksums in front of a block are read as they were written |
| `LzopStream.DecompressFile` | busybox/archival/lzop.c:711-821 | from any such run of blocks up to 64 MiB the data of all comes back through one buffer that is only replaced by a larger one, and none of the errors occurs |
| `LzopStream.RoundTripFile` | busybox/archival/lzop.c:601-821 | for every input, method, dictionary, parse within the tests and choice of checksums, what is compressed and decompressed comes back |
| `DebVersion.CompareText` | busybox/archival/dpkg.c:209-216 | the loop over non-digits decides as the weights do, or both strings stand at a number |
| `DebVersion.CompareDigits` | busybox/archival/dpkg.c:223-235 | the digit loop decides as the numbers do |
| `DebVersion.VersionComparePart` | busybox/archival/dpkg.c:201-238 | the sign is that of comparing the keys of both parts |
| `DebOrder.OrderIsPolicy` | busybox/archival/dpkg.c:190-198 | the weights order characters as the policy does: tilde, end, letters, the rest |
| `DebOrder.PolicyAgrees` | busybox/archival/dpkg.c:201-238 | comparing keys is comparing alternating non-digit and number parts as in section 5.6.12 of the Debian Policy Manual |
| `DebOrder.VersionCompare` | busybox/archival/dpkg.c:244-296 | the sign is that of comparing epoch, upstream part and revision by the policy; where the upstream parts differ at their first characters the result is the difference of weights |
| `DebOrder.WhatDecides` | busybox/archival/dpkg.c:255-292 | of versions as they are written: the lower epoch is earlier whatever follows, with equal epochs the upstream parts decide if they differ, and else the revisions, each in its own direction |
| `DebOrder.CompareWritten` | busybox/archival/dpkg.c:244-296 | the same of the number returned |
| `DebOrder.NumbersCompare` | busybox/archival/dpkg.c:217-234 | parts that are numbers are compared as numbers |
| `DebOrder.CharactersCompare` | busybox/archival/dpkg.c:190-216 | a tilde is before the end, the end before letters, letters before the rest, and a letter before a later one |
| `DebOrder.Samples` | busybox/archival/dpkg.c:244-296 | "1.9" is before "1.10", and "1:1.0" after "2.0" |
| `DebOrder.LettersApart` | busybox/archival/dpkg.c:209-216 | "a" against "c" gives -2 |
| `DebOrder.ParseInvertsShow` | busybox/archival/dpkg.c:255-287 | every version written by the rules is taken apart into its pieces |
| `DebOrder.Antisymmetric` | busybox/archival/dpkg.c:244-296 | comparing the other way around gives the opposite sign |
| `DebOrder.Transitive` | busybox/archival/dpkg.c:244-296 | the order is transitive, and strict where either step is |
| `DebOrder.ZeroIsEquivalent` | busybox/archival/dpkg.c:244-296 | zero exactly if epoch and both keys agree |
| `DebOrder.TestVersion` | busybox/archival/dpkg.c:298-316 | true exactly if the operator holds |
| `DebOrder.OperatorsAgree` | busybox/archival/dpkg.c:298-316 | the operators are consistent with each other and with equivalence |
| `DebOrder.MeetsIsEarlier` | busybox/archival/dpkg.c:298-316 | of versions as they are written: less means earlier, more means later, and the others follow |
| `DebOrder.EquivalentMeet` | busybox/archival/dpkg.c:298-316 | equivalent versions meet the same demands |
| `Probing.NameSizeIsPrime` | busybox/archival/dpkg.c:49-49 | 16381 is prime |
| `Probing.PackageSizeIsPrime` | busybox/archival/dpkg.c:59-59 | 10007 is prime |
| `Probing.StatusSizeIsPrime` | busybox/archival/dpkg.c:77-77 | 8191 is prime |
| `Probing.StepIsFree` | busybox/archival/dpkg.c:160-163 | no smaller multiple of a step below a prime is a multiple of it |
| `Probing.SlotIs` | busybox/archival/dpkg.c:160-163 | the k-th address is the start less k steps, modulo the size |
| `Probing.Covers` | busybox/archival/dpkg.c:155-164 | every slot is probed within as many steps as there are slots |
| `ProbeTables.MakeHash` | busybox/archival/dpkg.c:130-147 | a start below the size and a step from one to below the size |
| `ProbeTables.HashOfAbc` | busybox/archival/dpkg.c:130-147 | the start and the step for "abc" among the names |
| `ProbeTables.StopsInTime` | busybox/archival/dpkg.c:155-164 | a search for which some slot is free or wanted stops before it has gone around |
| `ProbeTables.StopsExactlyIf` | busybox/archival/dpkg.c:155-164 | a search ends exactly if some slot is free or wanted, and goes around for ever exactly if none is |
| `ProbeTables.FreeMeansAbsent` | busybox/archival/dpkg.c:318-339 | what a search that ends at a free slot did not find is not in the table |
| `ProbeTables.InsertChained` | busybox/archival/dpkg.c:165-165 | storing where a search ended keeps everything findable |
| `ProbeTables.RunInterns` | busybox/archival/dpkg.c:150-167 | over any run of searches nothing stored moves, no string is stored twice, and two calls return the same slot exactly if they ask for the same string |
| `DpkgTables.Globals.SearchName` | busybox/archival/dpkg.c:150-167 | finds the string or stores it, and keeps all three tables |
| `DpkgTables.Globals.SearchPackage` | busybox/archival/dpkg.c:318-339 | a node that matches name and operator if there is one, else the slot to store it in |
| `DpkgTables.Globals.SearchStatus` | busybox/archival/dpkg.c:172-188 | the status of the package with that name if there is one, else the slot to store it in |
| `DpkgTables.FittingIsNew` | busybox/archival/dpkg.c:647-649 | at the slot found there is nothing or the same package, and nowhere else is it |
| `DpkgTables.StorePackage` | busybox/archival/dpkg.c:647-649 | storing there keeps the table and adds exactly that package to those known |
| `DpkgTables.Globals.FillPackage` | busybox/archival/dpkg.c:580-651 | the strings are interned; nothing is stored exactly for an unknown version, or without a name when no string will have number 0, which the tables before the call decide; else the known packages grow by exactly this one, under its name or the string with number 0, and no two are the same |
| `DpkgTables.NamelessAtFirst` | busybox/archival/dpkg.c:592-648 | in empty tables an entry with the version "1" and no name has none |
| `DpkgTables.NamelessEntry` | busybox/archival/dpkg.c:592-648 | so as the first entry of a file it is read through a null pointer |
| `DpkgTables.Globals.IndexEntry` | busybox/archival/dpkg.c:744-762 | an entry of the status file is found under the name of its package, with its Status line, or with what the allocator left if it has none; nothing is stored exactly for the entries for which FillPackage stores nothing |
| `OsipFormat.SealIsSound` | flash_stitched/manage_device.c:243-248 | what write_OSIP writes adds up to zero exactly if the checksum covers itself, or covers bytes that add up to zero anyway |
| `OsipFormat.ShortHeaderFails` | flash_stitched/manage_device.c:243-248 | a signed header of size 1 is written so that it does not add up to zero |
| `OsipFormat.SoundIsSealed` | flash_stitched/manage_device.c:243-248 | a header that adds up to zero is already what write_OSIP would write |
| `OsipDevice.WriteOsip` | flash_stitched/manage_device.c:234-271 | the header with its checksum, and nothing else, is written to the start of the device |
| `OsipDevice.ReadOsip` | flash_stitched/osip_utils.c:237-278 | a copy of the header or of the backup |
| `OsipDevice.BackupHandle` | flash_stitched/osip_utils.c:280-302 | the header is written to the backup, and nothing else changes |
| `OsipEffects.BackedUpBytes` | flash_stitched/osip_utils.c:280-302 | every byte after a backup |
| `OsipDevice.RestoreHandle` | flash_stitched/osip_utils.c:304-348 | a signed backup becomes the primary and is erased; otherwise nothing changes |
| `OsipEffects.RestoredBytes` | flash_stitched/osip_utils.c:304-348 | every byte after a restore but the checksum |
| `OsipEffects.RestoredOnce` | flash_stitched/osip_utils.c:304-348 | a second restore finds no backup and changes nothing |
| `OsipDevice.WriteEntry` | flash_stitched/osip_utils.c:350-375 | one entry is written in place into one of the headers |
| `OsipDevice.UpdateHandle` | flash_stitched/osip_utils.c:402-439 | the device is exactly that of the update, whose bytes the next rows give |
| `OsipEffects.UpdatedBytes` | flash_stitched/osip_utils.c:412-432 | every byte after an update: in each of the seven fields of the entry that is not all ones the given bytes, and everywhere else, the reserved bytes, the other entries and the preamble included, the old byte, but for the checksum |
| `OsipEffects.BlockIsMoved` | flash_stitched/osip_utils.c:417-418 | an update that gives only the block moves entry 0 from block 5 to block 100 and changes nothing else but the checksum |
| `OsipDevice.InvalidateHandle` | flash_stitched/osip_utils.c:441-482 | the entries found are cleared; if some value is not found nothing is written |
| `OsipEffects.InvalidatedBytes` | flash_stitched/osip_utils.c:452-476 | every byte after invalidating: in the first entry with each value all but block, size and attribute is zero, and nothing else changes but the checksum |
| `OsipEffects.InvalidateFails` | flash_stitched/osip_utils.c:471-473 | it fails, and changes nothing, exactly if some value is the attribute of no entry |
| `OsipDevice.CheckImageValid` | flash_stitched/osip_utils.c:53-97 | succeeds exactly if the image is on the device |
| `OsipDevice.WriteStitchImage` | flash_stitched/osip_utils.c:99-166 | for a file of any size but zero, headers and image are written as the specification says, and the result is zero exactly if all of it was; a file shorter than a block is refused whatever lies behind it in memory |
| `OsipEffects.FlashedBytes` | flash_stitched/osip_utils.c:126-157 | every byte after flashing but the checksum: the image from its block on as far as the device reaches, and the entry in the backup if there is one, in the primary if there is none or it is entry 1 |
| `OsipEffects.NotFlashed` | flash_stitched/osip_utils.c:110-125 | an image of another size or number of entries changes nothing |
| `OsipRuns.PastFirstBlock` | flash_stitched/osip_utils.c:155-155 | images go past the first block exactly for these block numbers |
| `OsipRuns.FlashedOverHeaders` | flash_stitched/osip_utils.c:155-157 | for all others the image goes over the headers |
| `OsipRuns.FarDiskLost` | flash_stitched/osip_utils.c:155-157 | an image of two blocks at block 0x800000 replaces the first block of a device |
| `OsipRuns.RecordedSize` | flash_stitched/osip_utils.c:135-136 | a recorded entry says how many blocks were written |
| `OsipRuns.CommandKeeps` | flash_stitched/osip_utils.c:280-482 | every command leaves the primary alone or makes it add up to zero |
| `OsipRuns.CommandSeparates` | flash_stitched/osip_utils.c:280-482 | writes to one header leave the other alone, and nothing else in the first block changes |
| `OsipRuns.RunSound` | flash_stitched/osip_utils.c:280-482 | after any run of commands the primary adds up to zero unless no command has written it |
| `OsipRuns.RunSeparates` | flash_stitched/osip_utils.c:280-482 | no run changes the first block outside the two headers |
| `OsipRuns.BackupTracks` | flash_stitched/osip_utils.c:138-148 | between a backup and the next the backup keeps up with the flashes |
| `OsipRuns.RestoreIsFaithful` | flash_stitched/osip_utils.c:304-348 | a restore gives what was backed up with exactly the entries flashed since replaced and only the checksum computed anew |
| `OsipRuns.RestoreUndoes` | flash_stitched/osip_utils.c:304-348 | without a flash in between, a sound header comes back byte for byte |
| `OsipRuns.InvalidatedEntries` | flash_stitched/osip_utils.c:452-474 | fails exactly if a value is no attribute; else exactly the first entry with each value is cleared |
| `OsipRuns.UpdateNothing` | flash_stitched/osip_utils.c:402-439 | an update that gives no field writes the header anew, which changes nothing exactly if its checksum byte is the computed one, and where the checksum covers itself exactly if the header is sound |
| `OsipRuns.EmptyUpdateChanges` | flash_stitched/osip_utils.c:402-439 | such an update changes a device whose header has the size 1 |
| `OsipTool.HandleCommands` | flash_stitched/update_osip.c:176-218 | an invocation carries out its options in their fixed order up to the first failure, and exits with zero exactly if none failed; only the commands reached are asked to be well formed and to find headers of a size that fits |
| `OsipTool.PlanIsOrdered` | flash_stitched/update_osip.c:176-206 | exactly the commands that the options ask for, backup before restore before image before update before invalidating, which without a backup is refused |
| `OsipTool.UntilIsRun` | flash_stitched/update_osip.c:176-218 | where headers cover their checksums and images stay out of the first block, that is the run of the commands up to the first failure |

## Left out

- gzip.c stores `Freq`/`Code` and `Dad`/`Len` in shared words, and `head` and `prev` in one area; the models keep separate arrays.
- The window is given `MAX_MATCH` bytes behind its end for the reads that longest_match may make behind it after the end
  of the input; what those bytes are does not matter for any result but `SlidingWindow.StaysInside`.
- The branch of flush_block for seekable output is not modelled, because `seekable()` is always false there.
- `opt_len` and `static_len` are unbounded numbers; `compressed_len` is a 32-bit counter.
- The input is a sequence of bytes together with a list of limits for the reads; a limit of zero stands for a read that fails.
- Deflate.FindMatch: less than MAX_MATCH bytes before the end of the input longest_match compares bytes behind it, so which of
  several equally long matches is taken, and whether one of just the last three bytes is, is left open there; a string at
  exactly MAX_DIST, which is tried only at the head of a chain, is not promised to be found.
- Crc32.FillTable: only the variant for low bits first, which gzip asks for, is modelled.
- gzip and lzop command lines, file names, headers of lzop files and error exits are not modelled; the time stamp is a parameter.
- Tracing, assertions that only print, and the `DEBUG` counters of gzip.c are not modelled.
- The copies of four bytes at a time in lzo1x_d.c and the variants for LZO1Y and LZO1Z are not modelled.
- The match finder and the lazy heuristics of lzo1x_9x.c (swd_*, min_gain, better_match) are not modelled; every parse
  that the assertions of code_match and code_run allow is.
- LzopBlocks.CompressBlock999: the parse passes the encoder's test that a match of three bytes far back, right behind four
  or more literals, is not taken; the size bound that in-place decoding rests on is proved for those parses only.
- The CRC-32 of lzop blocks is a parameter, any function of the bytes; lzo_crc32 itself is not modelled.
- LzopStream.DecompressFile: the file is one that was written as blocks; what happens on other bytes is not stated.
- LzoOptimize.Optimize: the input is a well-formed stream, as lzo_compress guarantees; what happens on other bytes is not stated.
- ProbeTables.MakeHash: characters count as unsigned; for characters of 128 and above a platform with signed characters hashes
  differently, which no property here depends on.
- DebOrder.VersionCompare: an epoch of more than 31 bits is taken modulo 2^32, where atoi leaves the result open.
- DpkgTables.Globals.FillPackage: starts from the values of the Package and Version fields; parsing the control text and the
  edges for dependencies is not modelled.
- DpkgTables.Globals.FillPackage, IndexEntry and the searches ask for a slot that is free or wanted, since the source does
  not return otherwise.
- dpkg's extraction, scripts, status rewriting and dependency reports are not modelled.
- Opening, closing, syncing and failing reads and writes of the device, the reboot reason, and all printing of
  flash_stitched are not modelled; a write past the end of the device is cut short.
- OsipDevice.WriteStitchImage: an update number of seven or more, which the source does not refuse and which makes it write
  behind the header in memory, is not modelled; neither is an empty file.
- OsipDevice.UpdateHandle: the same holds for its update number.
- OsipDevice.WriteOsip: a header size above the 200 bytes of the structure, for which the checksum loop reads on behind it, is
  not modelled.
- OsipDevice.RestoreHandle: the same holds for a signed backup with such a size.
- OsipDevice.InvalidateHandle: the same holds for a header with such a size.
- OsipTool.HandleCommands: more than ten values to invalidate, which overflow the array for them in the source, are not
  modelled; it starts from the parsed options, so getopt and atoi are not modelled.
- The file name of a stitched image and reading the file are not modelled.
- The older entry points of manage_device.c (read_OSIP, write_payload_os_image and the payload record functions) would only
  repeat the same header reasoning.
- The other applets of busybox and the firmware loaders are not modelled.
