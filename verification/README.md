# Models and proofs for ObjFW

This project models the parts of ObjFW that transform data or keep state over many calls, and proves what
their documentation, or the standard they implement, promises. Where the code does otherwise, the model
does as the code, an input is given, and the exact condition is proved under which the promise holds.

`dafny verify dfyconfig.toml` checks the whole project. Methods follow the source step by step and are tied
to functions on values; the lemmas are about those functions.

| modules | subject |
|---|---|
| Delimiters, Streams, StreamLaws, StreamRuns, StreamTexts, CachedStream | the read cache of OFStream, searching for delimiters, OFSeekableStream, readiness |
| Huffman, HuffmanOrders, HuffmanBuilder, HuffmanWalks, BitReader, SlidingWindows, Deflate, DeflateRules, InflateStream | OFInflateStream against RFC 1951; the window also as OFLHADecompressingStream uses it |
| FixedCodes, DeflateTables, DeflateEncoding, DeflateBlocks, DeflateErrors, DeflateExamples | what a compressor may write, as the inverse of OFInflateStream; what is refused; two streams byte by byte |
| MapTableSpec, MapTables, MapTableEquality, Words | OFMapTable and its enumerators |
| ThreadPools, ThreadPoolOrders | OFThreadPool as a state machine over all interleavings |
| Sha256Blocks, Sha512Blocks, Sha2, Sha2Hashes, Hmacs | OFSHA224Or256Hash, OFSHA384Or512Hash, OFHMAC |
| Sha2Constants, Sha256Traces, Sha512Traces, Sha2Examples, HmacExamples | where the constants come from, published digests and a published value worked out round by round |
| Lists, ListRuns, SortedLists, ListEnumerators | OFList, OFSortedList, their enumeration |
| Utf8, Base64 | UTF-8 strings, Base64 |
| IniStrings, IniCategories, IniFiles, IniFileStreams | OFINICategory, OFINIFile |
| XmlTrees, XmlElementBuilders | OFXMLElementBuilder |
| Options, Bytes, Bits | shared data types and arithmetic |

Low-level reads are an arbitrary plan of how many bytes each read may return, zero included; hash functions,
comparisons, rotations and the decoding of strings are parameters; numbers are unbounded except where a
width matters, which is written out; `size_t` and `unsigned long` are taken to have 64 bits.

## Where the code does not do what it documents

- `tryReadTillDelimiter:` starts over behind a mismatched byte and forgets a partial match between reads, so
  delimiters of several bytes are missed in some texts and some splits (Delimiters.FindsFirstIff,
  StreamLaws.SplitDelimiterMissed, StreamLaws.SplitIndependentIff).
- A delimiter found at the very end of the cache leaves an empty buffer behind (src/OFStream.m:730-731), which is
  delivered as a text of its own when the end of the input is already known (src/OFStream.m:741-770, 983-1000). Even
  for delimiters of one byte, and for lines, there is an empty text too many or not depending on how the input
  arrives (StreamTexts.AllTexts, StreamTexts.AsPromisedIff, StreamTexts.TwoLinesOrThree).
- While a stream waits for a delimiter its cache is not searched, and reads, unreads and seeks do not end the
  waiting (StreamLaws.ReadTillExactly, StreamLaws.ReadCoherentIff, StreamLaws.QuietUntilTry,
  StreamTexts.WaitingHidesLines).
- `removeAllObjects` of OFMapTable counts no mutation, so enumerators are not told, not even when the buckets they
  read are moved (MapTables.EnumerateAfter, MapTables.DetachQuietly).
- `removeAllObjects` of OFList leaves the count as it is, so that it is too high ever after and equality fails
  (ListRuns.CountRightIff, ListRuns.CountGoesWrong, Lists.ComparedRightIff).
- A loop over an OFList does not end when the list ends within a batch after the first
  (ListEnumerators.EndsIff).
- OFThreadPool signals one waiter where several may wait (ThreadPools.TwoWaiters, ThreadPools.StrandedIff).
- The check of UTF-8 strings accepts forms that are not the shortest, surrogates, and numbers beyond
  0x10FFFF (Utf8.ValidIff, Utf8.OverlongIsAccepted, Utf8.SurrogateIsAccepted, Utf8.BeyondIsAccepted).
- Base64 decoding accepts padding in the middle and bits below the padding (Base64.EncodingOfDecodingIff,
  Base64.BitsBelowPadding, Base64.PaddingInside).
- Strings of INI files are unescaped in an order that loses some of them (IniStrings.SurvivesIff,
  IniStrings.BackslashIsLost); line feeds in strings without quotes, and keys that begin with a bracket, are
  written as they are and break the file (IniFiles.FileSurvivesIff, IniFiles.LineFeedIsLost); a byte order mark at
  the beginning of a name, key or value is lost, since it is dropped wherever a string is made from UTF-8 or cut out
  of another (src/OFUTF8String.m:201-205, 1086-1087; IniStrings.MarkIsLost).
- Inflating a stored block never returns when the input ends within its data and more is asked for
  (InflateStream.OFInflateStream.LowlevelRead, DeflateBlocks.HangingRead). On input cut off elsewhere the end is never
  reported, and reading until the end does not terminate (InflateStream.OFInflateStream.ReadUntilEnd,
  InflateStream.OFInflateStream.ReadInVain).
- Distances beyond the start of the output are not refused but give zeros
  (DeflateRules.InflatesAsTheStandardIff, DeflateRules.ZerosFromNowhere).

## Model

| member | source | states |
|---|---|---|
| Delimiters.ScanSound | src/OFStream.m:957-1011 | a hit of the byte-by-byte search is never wrong: at it stands a zero byte or the end of an occurrence of the delimiter; a miss returns exactly how much of the delimiter the text ends in |
| Delimiters.ScanAppend | src/OFStream.m:957-1011 | searching a text in two pieces with the number of matched bytes carried over finds what searching it whole finds |
| Delimiters.ConstantScan | src/OFStream.m:958-962 | for a delimiter that repeats one byte the search finds the first end of an occurrence |
| Delimiters.MissedAfterFirstByte | src/OFStream.m:958-962 | for any other delimiter without a zero byte there is a text in which the first occurrence is missed, since a mismatch starts over behind the mismatched byte |
| Delimiters.FindsFirstIff | src/OFStream.m:941-1100 | the search finds the first delimiter or zero byte in every text if and only if the delimiter repeats a single byte or contains a zero byte |
| StreamLaws.ReadConserves | src/OFStream.m:134-190 | a read of any length, whatever the low-level read returns, delivers the next bytes: what was to come is what was delivered followed by what is now to come |
| StreamLaws.ReadExactlyDelivers | src/OFStream.m:191-204 | an exact read delivers exactly the next bytes, or takes all that is left and reports truncation when that is too little |
| StreamLaws.UnreadReadExactly | src/OFStream.m:1869-1883 | unreading followed by an exact read of as many bytes is the identity |
| StreamLaws.TryConserves | src/OFStream.m:941-1100 | a try neither loses nor invents a byte for any delimiter and any split of the input; what it answers with nil or an encoding error stays pending |
| StreamLaws.ReadTillConserves | src/OFStream.m:1108-1119 | the same over the whole loop of tries |
| StreamTexts.AllTexts | src/OFStream.m:941-1119 | reading texts up to a delimiter of one byte, or with a zero byte in it, until nothing comes, for every content, every split of the input and any encoding: the texts are the promised ones, and an empty one follows if and only if the content ends with an end, the low-level read that delivers its last byte delivers another end before it, and that read used up the plan |
| StreamTexts.AsPromisedIff | src/OFStream.m:941-1119 | the texts of a content do not depend on how it arrives if and only if one of them is invalid, or it does not end with an end, or the bytes that fit in one page before that end hold no other |
| StreamTexts.TextsFrom | src/OFStream.m:941-1119 | the same from any state of the stream whose cache holds no skipped end: where an empty text comes too many can be told from the state |
| StreamTexts.AllLines | src/OFStream.m:713-875 | the same for lines: the promised ones without the carriage return, and an empty one too many exactly where there is an empty text too many |
| StreamTexts.TwoLinesOrThree | src/OFStream.m:724-770 | two lines are read as two when they arrive in two pieces, and as three when they arrive in one |
| StreamTexts.WaitingHidesLines | src/OFStream.m:724-745 | a try that waits, followed by a read of one byte: the next line has newlines in it |
| StreamLaws.ReadTillExactly | src/OFStream.m:1108-1119 | from any state, the next text read up to a simple delimiter is the promised one if and only if the cache holds no end skipped while waiting and the stream is not at its end with an empty buffer left over |
| StreamLaws.WaitingTrySwallows | src/OFStream.m:941-1100 | while waiting, the cache is not searched: whatever it holds becomes the front of the text |
| StreamLaws.SplitDelimiterMissed | src/OFStream.m:951-1009 | a delimiter of two or more bytes that arrives in two pieces is delivered as text |
| StreamLaws.SplitIndependentIff | src/OFStream.m:941-1119 | the first text read from a fresh stream is independent of how the input is split if and only if the delimiter is one byte or contains a zero byte |
| StreamLaws.ReadCoherentIff | src/OFStream.m:134-190 | exactly which plain reads may fill the cache with ends that the next search skips |
| StreamLaws.UnreadCoherentIff | src/OFStream.m:1869-1883 | unreading while waiting keeps the cache coherent if and only if what is unread holds no end |
| StreamLaws.ReadLineIsReadTill | src/OFStream.m:713-875 | reading a line is reading up to a newline, with the carriage return before it dropped |
| StreamLaws.ReadLineExactly | src/OFStream.m:713-875 | from any state, the next line is the promised text without its carriage return if and only if the cache holds no skipped newline and the stream is not at its end with an empty buffer left over |
| StreamRuns.CompleteIsReported | src/OFKernelEventObserver.m:215-243 | over every run of tries, reads, unreads and seeks that put no end of the string behind the search, a stream whose cache holds a complete string is reported |
| StreamLaws.TryReports | src/OFKernelEventObserver.m:215-243 | after a try that gave nothing the stream is not reported; after one that gave text it is reported exactly if the cache is not empty |
| StreamLaws.QuietUntilTry | src/OFKernelEventObserver.m:215-243 | over every run of reads, unreads and seeks after a failed try the stream stays unreported: only another try brings the reports back |
| StreamLaws.SeekAgrees | src/OFSeekableStream.m:49-64 | seeking through the cache agrees with the uncached file for all three origins, discards what was unread, and changes nothing when it fails |
| StreamLaws.RunInSync | src/OFSeekableStream.m:49-64 | over every run of reads, tries, unreads of what was read, and seeks, the next bytes are those of the file at the current position |
| StreamRuns.RunLedger | src/OFStream.m:134-1883 | over every run, with any unreads and seeks and however the input arrives, each operation returns exactly what it takes off the bytes to come: no byte is lost, invented or reordered |
| StreamRuns.RunBalances | src/OFStream.m:134-1883 | without seeks, the bytes taken followed by those still to come are, after all that was unread, the bytes that were to come |
| CachedStream.OFStream.ReadIntoBuffer | src/OFStream.m:134-190 | the method on the cache does to the stream what the specification of a read does |
| CachedStream.OFStream.ReadExactLength | src/OFStream.m:191-204 | the loop of reads is the specified exact read |
| CachedStream.OFStream.UnreadFromBuffer | src/OFStream.m:1869-1883 | the cache becomes the unread bytes followed by what it was |
| CachedStream.OFStream.Search | src/OFStream.m:958-977 | the loop over the bytes is the scan of module Delimiters |
| CachedStream.OFStream.TryReadTillDelimiter | src/OFStream.m:941-1100 | the method on the cache is the specified try, with the flag for waiting |
| CachedStream.OFStream.ReadTillDelimiter | src/OFStream.m:1108-1119 | the loop of tries is the specified read, and ends for every input that ends |
| CachedStream.OFStream.TryReadLine | src/OFStream.m:713-858 | the method is the specified try for a line |
| CachedStream.OFStream.ReadLineToEnd | src/OFStream.m:865-875 | the loop of tries is the specified read of a line |
| CachedStream.OFStream.SeekToOffset | src/OFSeekableStream.m:49-64 | the method is the specified seek |
| CachedStream.OFKernelEventObserver.RemoveObjectForReading | src/OFKernelEventObserver.m:205-208 | the first occurrence of the stream goes, and nothing else |
| CachedStream.OFKernelEventObserver.ProcessReadBuffers | src/OFKernelEventObserver.m:215-243 | exactly the observed streams that have cached data and do not wait for a delimiter are reported, in order, and the answer says whether there was one |
| Huffman.WalkResumes | src/huffman_tree.h:32-54 | a walk stopped after any bit and resumed from the saved node gives what one walk gives |
| Huffman.PrefixFree | src/huffman_tree.m:59-112 | lengths that are not over-subscribed give codes of which none is a prefix of another (section 3.2.2 of RFC 1951) |
| Huffman.WalkSound | src/huffman_tree.h:32-54 | finding a symbol means that exactly its canonical code was read |
| Huffman.OversubscribedCollides | src/huffman_tree.m:59-112 | over-subscribed lengths give two codes of which one is a prefix of the other |
| Huffman.DecodesIff | src/huffman_tree.m:59-112 | every symbol is decoded from its canonical code, whatever follows, if and only if the lengths are not over-subscribed |
| HuffmanOrders.CodesInOrder | src/huffman_tree.m:59-112 | of two used symbols the one with the shorter code, or on equal lengths the smaller symbol, has the lexicographically smaller code |
| HuffmanOrders.NextCode | src/huffman_tree.m:92-105 | from one used symbol to the next the code goes up by one, with zeros behind it where codes get longer: there are no gaps |
| HuffmanOrders.FirstIsZero | src/huffman_tree.m:92-105 | the first code has no bit set |
| HuffmanBuilder.InsertTree | src/huffman_tree.m:40-57 | the loop over the bits of a code turns the heap of nodes into the one that represents the tree with that symbol inserted |
| HuffmanBuilder.Construct | src/huffman_tree.m:59-112 | the nodes built from code lengths represent the tree of what 16 bits keep of the codes, whatever the unset count of zero lengths holds; for lengths up to 16 that is the tree of the canonical codes |
| BitReader.ByteFromBits | src/OFInflateStream.m:140-140 | a byte is the number of its bits, least significant first |
| BitReader.OFBitReader.FetchByte | src/OFInflateStream.m:116-138 | the next byte comes from the buffer or from a read of the stream, and the bits to come are unchanged |
| BitReader.OFBitReader.TryReadBits | src/OFInflateStream.m:108-148 | either the next bits are taken and their number returned, or those there are stay saved and nothing is lost |
| BitReader.OFBitReader.TreeWalk | src/huffman_tree.h:32-54 | the walk over the bits of the stream is the walk of module Huffman over the bits to come, which HuffmanWalks.WalkNodes ties to the nodes in the heap |
| HuffmanWalks.WalkNodes | src/huffman_tree.h:32-54 | the walk over nodes in the heap, from any node it was suspended at, finds what the walk of module Huffman finds in the tree they stand for |
| HuffmanWalks.ReadSymbol | src/huffman_tree.h:32-54 | reading with the nodes that are built from any code lengths, over-subscribed ones included, finds what the walk down their tree finds; when lengths up to 16 are not over-subscribed, the canonical code of each symbol is read as that symbol |
| BitReader.OFBitReader.SkipToByte | src/OFInflateStream.m:267-271 | the bits up to the next byte are dropped |
| BitReader.OFBitReader.TakeBytes | src/OFInflateStream.m:297-333 | stored bytes come from the buffer and then from the stream, in order |
| BitReader.OFBitReader.GiveBack | src/OFInflateStream.m:252-255 | unused bytes of the buffer go back to the stream |
| SlidingWindows.CopyIndexes | src/OFInflateStream.m:571-597 | byte `i` of a copy, overlapping or not, is the byte `distance` before it in the output so far |
| SlidingWindows.CopySplit | src/OFInflateStream.m:571-597 | a copy interrupted at any byte and continued is the whole copy |
| SlidingWindows.SlidingWindow.constructor | src/OFLHADecompressingStream.m:97-121 | a window of any power of two holds its fill byte for everything before the output |
| SlidingWindows.SlidingWindow.Put | src/OFLHADecompressingStream.m:440-442 | writing at the masked index extends the history that the window holds |
| SlidingWindows.SlidingWindow.Get | src/OFLHADecompressingStream.m:481-483 | reading at the masked index gives the byte that far back in the unbounded history, for every distance up to the size |
| SlidingWindows.SlidingWindow.CopyBack | src/OFLHADecompressingStream.m:472-491 | copying a pair byte by byte delivers what indexing the full output gives, up to the space there is |
| InflateStream.OFInflateStream.constructor | src/OFInflateStream.m:184-206 | at first, what is to be delivered is the lenient meaning of all input by RFC 1951: distances beyond the start of the output give zeros |
| InflateStream.OFInflateStream.DoBlockHeader | src/OFInflateStream.m:261-293 | reading a block header keeps what the input means (section 3.2.3 of RFC 1951) |
| InflateStream.OFInflateStream.StartBlock | src/OFInflateStream.m:264-291 | the three bits choose the kind of block, its padding and its trees as the standard says; the fourth kind is refused |
| InflateStream.OFInflateStream.DoUncompressedHeader | src/OFInflateStream.m:294-322 | reading the header of a stored block, in any pieces, keeps what the input means; lengths that do not match are refused |
| InflateStream.OFInflateStream.DoUncompressed | src/OFInflateStream.m:324-352 | what is delivered of a stored block and what is to come are what the input meant; when the input has ended within the data, the turn changes nothing at all and comes again |
| InflateStream.OFInflateStream.ReadLength | src/OFInflateStream.m:409-427 | decoding a code length keeps what the input means |
| InflateStream.OFInflateStream.ReadRepeat | src/OFInflateStream.m:429-478 | repeating a code length keeps what the input means; running over the number of codes is refused |
| InflateStream.OFInflateStream.EndLengths | src/OFInflateStream.m:481-501 | the code lengths are split into those of the two trees |
| InflateStream.OFInflateStream.ReadSymbol | src/OFInflateStream.m:599-654 | decoding a literal, the end of a block or a length keeps what the input means |
| InflateStream.OFInflateStream.ReadLengthExtra | src/OFInflateStream.m:524-533 | reading the extra bits of a length keeps what the input means |
| InflateStream.OFInflateStream.ReadDistance | src/OFInflateStream.m:535-560 | decoding a distance keeps what the input means; codes 30 and 31 are refused |
| InflateStream.OFInflateStream.ReadDistanceExtra | src/OFInflateStream.m:561-569 | reading the extra bits of a distance keeps what the input means |
| InflateStream.OFInflateStream.CopyPair | src/OFInflateStream.m:571-597 | what is delivered of a pair and what is to come are what the input meant by the lenient rules, wherever the output ends |
| InflateStream.OFInflateStream.Turn | src/OFInflateStream.m:249-662 | every turn of the state machine keeps what the input means; one on the ended input of a stored block changes nothing |
| InflateStream.OFInflateStream.TurnInVain | src/OFInflateStream.m:324-352 | when the input has ended within a stored block, any number of turns deliver nothing and change nothing: the loop of the source does not end |
| InflateStream.OFInflateStream.Finish | src/OFInflateStream.m:251-259 | at the end what was read too much goes back to the stream: exactly the bytes behind the last block are left |
| InflateStream.OFInflateStream.LowlevelRead | src/OFInflateStream.m:233-662 | whatever the limits on input and output, the bytes delivered and what is still to come are together what the input means; corrupt input is reported only if it is; when nothing more can come from below, the call never returns if and only if the input ends within the data of a stored block and more is asked for than can be delivered |
| InflateStream.OFInflateStream.Hungry | src/OFInflateStream.m:233-662 | when decompression needs input and there is none, the stream was cut off |
| InflateStream.OFInflateStream.ReadAll | src/OFInflateStream.m:233-662 | over every run of reads of any lengths the output does not depend on how it was asked for |
| InflateStream.OFInflateStream.ReadUntilEnd | src/OFStream.m:663-685 | reading until the end, in any reads over input in any pieces: the loop terminates if and only if the input is complete or corrupt; if it ends within the data of a stored block a read never returns, and if it ends elsewhere the reads give nothing for ever; all that can be delivered was |
| InflateStream.OFInflateStream.ReadInVain | src/OFStream.m:663-685 | on input cut off outside the data of a stored block, any number of reads of any length give nothing and none reports the end: the loop of the source does not end |
| DeflateBlocks.CutInData | src/OFInflateStream.m:294-352 | a stored block with less data than its header says means its data and such an end, for any data |
| DeflateBlocks.HangingRead | src/OFInflateStream.m:324-352 | five bytes of input on which a read never returns |
| DeflateRules.InflatesAsTheStandardIff | src/OFInflateStream.m:571-597 | for all input, the lenient meaning is that of RFC 1951 if and only if the standard finds no distance beyond the start of the output, and up to the first of them in any case |
| DeflateRules.ZerosFromNowhere | src/OFInflateStream.m:571-597 | a stream with such a distance, which gives three zeros |
| FixedCodes.FixedLiteralsFit | src/OFInflateStream.m:157-166 | the fixed literal codes have a place for every symbol: their lengths are not over-subscribed |
| FixedCodes.FixedDistancesFit | src/OFInflateStream.m:168-171 | the same for the fixed distance codes |
| FixedCodes.FixedCodesAre | src/OFInflateStream.m:157-166 | the fixed codes of literals and lengths are those that section 3.2.6 of RFC 1951 lists: 0x30 on in 8 bits, 0x190 on in 9, 0 on in 7, 0xC0 on in 8 |
| FixedCodes.FixedDistanceCodesAre | src/OFInflateStream.m:168-171 | the fixed code of a distance is its number in 5 bits |
| DeflateTables.LengthsTile | src/OFInflateStream.m:64-73 | each length code starts where the codes before it end, with the extra bits of section 3.2.5 of RFC 1951; the last one stands for 258 alone |
| DeflateTables.DistancesTile | src/OFInflateStream.m:74-81 | the same for distance codes, which reach from 1 to 32768 |
| DeflateTables.OrderIs | src/OFInflateStream.m:102-104 | the lengths of the code length codes are sent for the three kinds of run, for length 0, and then outwards from 8 |
| DeflateTables.EveryLength | src/OFInflateStream.m:64-73 | every length from 3 to 258 has a code |
| DeflateTables.EveryDistance | src/OFInflateStream.m:74-81 | every distance from 1 to 32768 has exactly one code |
| DeflateExamples.InflatesA | src/OFInflateStream.m:503-655 | the bytes 4B 4C 44 02 00, a block with the fixed codes, a length with an extra bit and a distance of one, are thirteen times "a" |
| DeflateExamples.InflatesB | src/OFInflateStream.m:354-655 | a block of 23 bytes with codes of its own, sent with all three kinds of run, is 35 letters "a" and "b", with five references of other distances and lengths |
| DeflateErrors.ReservedKind | src/OFInflateStream.m:289-290 | the fourth kind of block is refused |
| DeflateErrors.WrongComplement | src/OFInflateStream.m:308-310 | a stored block is refused if and only if the second number is not the complement of its length |
| DeflateErrors.TooManyCodes | src/OFInflateStream.m:357-366 | more than 286 codes for literals and lengths are refused, and no fewer |
| DeflateErrors.RunRefused | src/OFInflateStream.m:429-478 | a run that repeats nothing or goes beyond the last code length is refused |
| DeflateErrors.UnusedSymbol | src/OFInflateStream.m:634-635 | symbols 286 and 287 are refused, although they have fixed codes |
| DeflateErrors.UnusedDistance | src/OFInflateStream.m:541-543 | so are distance codes 30 and 31 |
| DeflateEncoding.TokenMeans | src/OFInflateStream.m:503-655 | a literal, or a length and distance with their extra bits, is read from its bits as the bytes it stands for, and reading goes on behind it, for any codes that are not over-subscribed; by the strict rules only if it reaches no farther than the output |
| DeflateEncoding.BlockMeans | src/OFInflateStream.m:503-655 | so is any sequence of literals and references up to the end of the block |
| DeflateBlocks.CodeLengthsMean | src/OFInflateStream.m:382-396 | the lengths of the code length codes, sent in their order and possibly not to the end, arrive each at its symbol |
| DeflateBlocks.RunsMean | src/OFInflateStream.m:409-479 | any mixture of code lengths and runs of them is read as the lengths it stands for |
| DeflateBlocks.TreesMean | src/OFInflateStream.m:354-501 | whatever two codes are sent, and however their lengths are put into runs, the block is read with exactly the trees of these codes |
| DeflateBlocks.StoredMeans | src/OFInflateStream.m:294-352 | a stored block behind any padding is read as its data |
| DeflateBlocks.BodyMeans | src/OFInflateStream.m:266-291 | the header tells the three kinds of block apart, and each is read as what it stands for |
| DeflateBlocks.RoundTrip | src/OFInflateStream.m:233-662 | decompression undoes compression: any stream of stored, fixed and dynamic blocks, with any codes, runs, literals and overlapping references, is read as what it stands for and ends where it ends, by the lenient rules and, if no distance goes beyond the start of the output, by the strict ones |
| DeflateBlocks.ReadAsTheStandardIff | src/OFInflateStream.m:571-597 | such a stream is read as RFC 1951 says if and only if each of its references stays within the output before it |
| DeflateBlocks.AnyDataComesBack | src/OFInflateStream.m:233-662 | every sequence of bytes has a stream from which it comes back |
| DeflateBlocks.ReadCompressed | src/OFInflateStream.m:233-662 | reads of any lengths over input in any pieces deliver nothing but the compressed data in order, never an error, and all of it when the end is reported, with the input left right behind the stream |
| DeflateBlocks.ReadToEnd | src/OFStream.m:663-685 | reading what a compressor wrote until the end of the stream terminates with exactly the data, in whatever pieces the input arrives, empty ones included |
| InflateStream.OFInflateStream.ReadLitLenCount | src/OFInflateStream.m:357-366 | the number of literal and length codes is read and checked |
| InflateStream.OFInflateStream.ReadDistCount | src/OFInflateStream.m:368-373 | the number of distance codes is read |
| InflateStream.OFInflateStream.ReadCodeLenCount | src/OFInflateStream.m:375-380 | the number of code length codes is read |
| InflateStream.OFInflateStream.ReadCodeLength | src/OFInflateStream.m:385-393 | the next code length of the code length code is read, in the order of section 3.2.7 of RFC 1951 |
| InflateStream.OFInflateStream.EndCodeLengths | src/OFInflateStream.m:395-402 | the code length tree is built |
| InflateStream.OFInflateStream.WriteByte | src/OFInflateStream.m:508-522 | a literal for which there was no space is delivered |
| InflateStream.OFInflateStream.TakeSymbol | src/OFInflateStream.m:603-654 | what a decoded symbol means: a literal, the end of the block, a length, or nothing valid |
| InflateStream.OFInflateStream.TreeTurn | src/OFInflateStream.m:354-501 | every turn of reading the trees keeps what the input means |
| InflateStream.OFInflateStream.SymbolTurn | src/OFInflateStream.m:503-655 | every turn of reading symbols keeps what the input means |
| MapTableSpec.SetLaws | src/OFMapTable.m:359-445 | setting keeps keys pairwise unequal, adds one entry exactly for a new key, and changes only lookups of equal keys |
| MapTableSpec.RemoveLaws | src/OFMapTable.m:455-509 | removing ends lookups of equal keys and changes no other |
| MapTableSpec.LookupAfterAll | src/OFMapTable.m:266-538 | after any run of set, remove and remove-all, a lookup finds what the changes left one after the other for an equal key |
| MapTableSpec.Unnoticed | src/OFMapTable.m:688-703 | when the counter of mutations is where it was, the keys are the same unless remove-all was among the changes, which leaves none and is not counted |
| MapTableSpec.FillKeepsProbeable | src/OFMapTable.m:401-437 | filling the first slot not in use keeps every entry within reach of its search |
| MapTableSpec.DeleteKeepsProbeable | src/OFMapTable.m:469-476 | a slot marked as deleted keeps every other entry within reach of its search |
| MapTableSpec.NotBeyondEmpty | src/OFMapTable.m:276-296 | no entry lies beyond the first empty slot of its search |
| MapTableSpec.SlotToSpare | src/OFMapTable.m:403-415 | with fewer entries than slots there is a slot that is not in use |
| MapTables.OFMapTable.InitialCapacity | src/OFMapTable.m:148-164 | the capacity is the least power of two from 16 on of which the entries asked for fill less than three quarters, or the request is refused |
| MapTables.OFMapTable.constructor | src/OFMapTable.m:122-176 | a new table is the empty map |
| MapTables.OFMapTable.Find | src/OFMapTable.m:276-296 | the two-part probe ends, and finds the entry of an equal key if and only if the map has one |
| MapTables.OFMapTable.ObjectForKey | src/OFMapTable.m:266-299 | lookup is lookup in the finite map, for every lawful hash and comparison and every rotation |
| MapTables.OFMapTable.ContainsObject | src/OFMapTable.m:540-551 | the answer is yes exactly if some entry has an equal value |
| MapTables.OFMapTable.FindFree | src/OFMapTable.m:401-415 | the probe for a free slot finds one, and all slots before it are in use |
| MapTables.OFMapTable.Rehash | src/OFMapTable.m:328-357 | moving all entries to an array of another capacity keeps the map |
| MapTables.OFMapTable.ResizeForCount | src/OFMapTable.m:301-357 | the table doubles exactly when the count would fill three quarters of it, is halved exactly when after a removal less than a quarter is filled and 16 slots are left, and keeps the map |
| MapTables.OFMapTable.Insert | src/OFMapTable.m:400-437 | the new entry is in the map and the table stays valid |
| MapTables.OFMapTable.Add | src/OFMapTable.m:388-425 | a new key is in the map afterwards and counts as a mutation, unless the table is full |
| MapTables.OFMapTable.SetObject | src/OFMapTable.m:447-453 | the map becomes the one after setting, a key that is there already is kept, and exactly a new key counts as a mutation |
| MapTables.OFMapTable.RemoveObjectForKey | src/OFMapTable.m:455-509 | the map becomes the one after removing, and exactly the removal of a key that was there counts as a mutation |
| MapTables.OFMapTable.RemoveAllObjects | src/OFMapTable.m:511-538 | the map becomes empty with a new rotation, and the counter of mutations stays; the buckets stay where they are if and only if they have the least capacity and reallocating them does not move them |
| MapTables.OFMapTable.Run | src/OFMapTable.m:359-538 | every run of changes refines the finite map, and the counter counts its mutations; if it counted none, the buckets are where they were if and only if no remove-all moved them, and the slots are used as they were unless there was one |
| MapTables.OFMapTable.Copy | src/OFMapTable.m:239-259 | a copy holds the same map under its own rotation, from hashes rotated back |
| MapTables.OFMapTable.Hash | src/OFMapTable.m:225-237 | the hash is that of the map, whatever capacity, rotation and history |
| MapTables.OFMapTable.IsEqual | src/OFMapTable.m:194-223 | the answer is yes exactly if the maps are the same modulo the comparisons |
| MapTableEquality.AnyLast | src/OFMapTable.m:225-237 | the hash does not depend on the order of the entries |
| MapTableEquality.HashBits | src/OFMapTable.m:225-237 | a bit of the hash is set if and only if it is set in an odd number of the hashes of keys and values |
| MapTableEquality.SameHash | src/OFMapTable.m:194-237 | tables that are equal have equal hashes |
| MapTableEquality.SameSymmetric | src/OFMapTable.m:194-223 | equality does not depend on which table is asked |
| Words.RorRol | src/OFMapTable.m:225-259 | rotating right undoes rotating left |
| MapTables.KeysFromSlots | src/OFMapTable.m:688-703 | the keys still to be enumerated are those of the slots from the position on, each once |
| MapTables.OFMapTableKeyEnumerator.constructor | src/OFMapTable.m:659-673 | at first all keys are to come, each of them once |
| MapTables.OFMapTableKeyEnumerator.NextObject | src/OFMapTable.m:688-703 | either a mutation is reported, or, while the slots are those of the table, the next key is given and taken off those to come |
| MapTables.EnumerateAfter | src/OFMapTable.m:513-538 | after every run of changes with equal counters an enumerator stays attached if and only if no remove-all moved the buckets; then it has no keys to come if there was one, and otherwise the same keys |
| MapTables.DetachQuietly | src/OFMapTable.m:513-538 | remove-all detaches the enumerator of any table that has grown, and of any other if reallocating moves the buckets, without its counter telling |
| MapTables.RestKept | src/OFMapTable.m:442-445 | setting values of keys that are there disturbs no enumeration |
| ThreadPools.InvAlways | src/OFThreadPool.m:107-356 | every reachable state of every interleaving, with spurious wakeups, satisfies the invariant |
| ThreadPools.OnePlace | src/OFThreadPool.m:161-222 | every dispatched job is in exactly one place: about to be queued, queued, with one worker, done, or given up in the release |
| ThreadPools.LocatedNext | src/OFThreadPool.m:161-316 | every step keeps every job in its one place |
| ThreadPools.LoggedNext | src/OFThreadPool.m:199-204 | a job starts at most once and finishes at most once, and a job that started has finished unless it is running |
| ThreadPools.CountedNext | src/OFThreadPool.m:209-216 | the counters are the numbers of dispatched and of done jobs |
| ThreadPools.ReadyNext | src/OFThreadPool.m:303-316 | while a worker sleeps there are no more jobs queued than workers on their way to the queue: no wakeup is lost |
| ThreadPools.FlagsNext | src/OFThreadPool.m:278-293 | no worker leaves before its flag is set, and once the pool is gone none sleeps |
| ThreadPools.WaitMeansDone | src/OFThreadPool.m:318-331 | `waitUntilDone` returns only when every job dispatched before the call was started, ran to its end, and both once |
| ThreadPools.DoneStays | src/OFThreadPool.m:209-216 | a job once done stays done over every run |
| ThreadPools.WorkShrinks | src/OFThreadPool.m:154-223 | between calls and spurious wakeups only so many steps can be taken |
| ThreadPools.QuietMeansDone | src/OFThreadPool.m:154-223 | a pool with a worker comes to rest only when all dispatched jobs are done |
| ThreadPools.ReleasedLeavesAlone | src/OFThreadPool.m:194-220 | once all flags are set no worker touches queue or counters, no job starts, and a running job can only come to its end |
| ThreadPools.ReleasedTerminates | src/OFThreadPool.m:278-301 | after the release only so many steps are left, and then all workers have terminated and every job that started has finished |
| ThreadPools.StrandedIff | src/OFThreadPool.m:209-220 | a count that wakes one waiter leaves one asleep if and only if two or more were asleep |
| ThreadPools.NeverStranded | src/OFThreadPool.m:318-331 | as long as never more than one thread waits, none sleeps while all jobs are done |
| ThreadPools.TwoWaiters | src/OFThreadPool.m:318-331 | a run after which all jobs are done, one of two waiters has returned, and the other sleeps with nothing left to wake it |
| ThreadPoolOrders.FirstInFirstOut | src/OFThreadPool.m:161-316 | over every run, the jobs appended so far, in order, are those that workers took, in order, followed by the queue |
| ThreadPoolOrders.StartsInOrder | src/OFThreadPool.m:161-316 | with one worker, over every run jobs start in the order in which they were appended |
| ThreadPoolOrders.OneByOne | src/OFThreadPool.m:161-316 | with one worker and one client, jobs start in the order in which they were dispatched |
| Sha256Blocks.ProcessBlock | src/OFSHA224Or256Hash.m:63-118 | processing a block in place turns the state into that of FIPS 180-4 |
| Sha256Blocks.ChoiceAgrees | src/OFSHA224Or256Hash.m:63-118 | the shorter expression for Ch is the function of FIPS 180-4 |
| Sha256Blocks.MajorityAgrees | src/OFSHA224Or256Hash.m:63-118 | the shorter expression for Maj is the function of FIPS 180-4 |
| Sha512Blocks.ProcessBlock | src/OFSHA384Or512Hash.m:74-129 | processing a block in place turns the state into that of FIPS 180-4 |
| Sha512Blocks.ChoiceAgrees | src/OFSHA384Or512Hash.m:74-129 | the shorter expression for Ch is the function of FIPS 180-4 |
| Sha512Blocks.MajorityAgrees | src/OFSHA384Or512Hash.m:74-129 | the shorter expression for Maj is the function of FIPS 180-4 |
| Sha2Hashes.Carry | src/OFSHA384Or512Hash.m:227-229 | one addition to the counter of two words, with its carry, is addition modulo 2 to the power of 128 |
| Bytes.LoadStore | src/OFSHA224Or256Hash.m:252-255 | a number stored most significant byte first is read back |
| Bytes.StoreLoad | src/OFSHA224Or256Hash.m:252-255 | bytes read as a number are stored back |
| Sha2Hashes.StoredCounters | src/OFSHA384Or512Hash.m:265-266 | what the counter holds is stored as the length that section 5.1 of FIPS 180-4 wants |
| Sha2Hashes.DigestShort | src/OFSHA224Or256Hash.m:243-257 | a last block with room for the length is padded as section 5.1 of FIPS 180-4 defines |
| Sha2Hashes.DigestLong | src/OFSHA224Or256Hash.m:243-257 | without room, the padding takes one more block |
| Sha2Hashes.OFSHA2Hash.AddBits | src/OFSHA384Or512Hash.m:227-229 | the counter is eight times the byte length, modulo 2 to the power of 64 or 128 |
| Sha2Hashes.OFSHA2Hash.UpdateWithBuffer | src/OFSHA224Or256Hash.m:204-236 | the message grows by the buffer, in blocks or not; a calculated hash and a length that is too large are refused without change |
| Sha2Hashes.OFSHA2Hash.GetDigest | src/OFSHA224Or256Hash.m:238-263 | the digest is that of FIPS 180-4 for all bytes given so far, however they were split, and stays |
| Sha2Hashes.OFSHA2Hash.Reset | src/OFSHA384Or512Hash.m:276-283 | the message is empty again |
| Sha2Hashes.OFSHA2Hash.Copy | src/OFSHA384Or512Hash.m:203-213 | a copy taken at any point goes on from the same message and shares nothing |
| Sha2Examples.DigestOfAbc224 | src/OFSHA224Or256Hash.m:72-118 | the digest of "abc" is the published one, as 28 bytes |
| Sha2Examples.DigestOfAbc256 | src/OFSHA224Or256Hash.m:72-118 | the digest of "abc" is the published one, as 32 bytes |
| Sha2Examples.DigestOfAbc384 | src/OFSHA384Or512Hash.m:74-129 | the digest of "abc" is the published one, as 48 bytes |
| Sha2Examples.DigestOfAbc512 | src/OFSHA384Or512Hash.m:74-129 | the digest of "abc" is the published one, as 64 bytes |
| Sha256Traces.TraceCompresses | src/OFSHA224Or256Hash.m:63-118 | six blocks, worked out eight rounds at a time, end in the states that the traces say |
| Sha512Traces.TraceCompresses | src/OFSHA384Or512Hash.m:74-129 | the same for two blocks of the wide variants |
| Sha2Constants.Constants256 | src/OFSHA224Or256Hash.m:35-52 | each constant of the table is the first 32 bits of the fractional part of the cube root of the prime in its place, as two inequalities of integers |
| Sha2Constants.Constants512 | src/OFSHA384Or512Hash.m:35-63 | the same with 64 bits |
| Sha2Constants.Initial256 | src/OFSHA256Hash.m:35-45 | the initial state is the first 32 bits of the fractional parts of the square roots of the first eight primes |
| Sha2Constants.Initial512 | src/OFSHA512Hash.m:35-45 | the same with 64 bits |
| Sha2Constants.Initial384 | src/OFSHA384Hash.m:35-45 | the same for the ninth to the sixteenth prime |
| Sha2Constants.Initial224 | src/OFSHA224Hash.m:35-45 | the second 32 bits of the same roots |
| Hmacs.OFHMAC.SetKey | src/OFHMAC.m:64-134 | the key is set and the message empty; keys longer than a block are hashed first; a key that is too long leaves no key |
| Hmacs.OFHMAC.UpdateWithBuffer | src/OFHMAC.m:136-148 | the message grows by the buffer, unless there is no key, the digest was taken, or the length is too large |
| Hmacs.OFHMAC.GetDigest | src/OFHMAC.m:150-163 | the digest is the HMAC of section 2 of RFC 2104 for the key and the message |
| Hmacs.OFHMAC.Reset | src/OFHMAC.m:170-180 | the message is empty again under the same key, from the saved copies |
| Hmacs.OFHMAC.Zero | src/OFHMAC.m:182-191 | there is no key any more |
| Hmacs.OFHMAC.Run | src/OFHMAC.m:64-191 | over every run of calls each digest handed out is the HMAC for the last key and the bytes since the last reset |
| Hmacs.PiecesJoin | src/OFHMAC.m:136-148 | whatever happened before, after a reset or a new key the bytes count as they are given, in pieces of any size |
| HmacExamples.PadBytes | src/OFHMAC.m:100-110 | for a key of at most a block, byte by byte, with zeros behind the key: the inner pad has bits 1, 2, 4 and 5 inverted, the outer one bits 2, 3, 4 and 6 |
| HmacExamples.EmptyKeyAbsorbed | src/OFHMAC.m:100-121 | with the empty key, the inner hash has absorbed exactly a block of bytes 0x36, the outer one of bytes 0x5C |
| HmacExamples.LongKeyActsAsDigest | src/OFHMAC.m:85-99 | a key longer than a block acts as its digest does |
| HmacExamples.PublishedHmac | src/OFHMAC.m:64-163 | test case 1 of RFC 4231: the value for "Hi There" under twenty bytes 0x0B |
| Words.XorBits | src/OFHMAC.m:107-110 | exclusive or, bit by bit |
| Lists.OFList.AppendObject | src/OFList.m:96-117 | the links spell the old nodes and the new one, in both directions |
| Lists.OFList.PrependObject | src/OFList.m:119-139 | the links spell the new node and the old ones, in both directions |
| Lists.OFList.InsertBefore | src/OFList.m:141-163 | the new node comes directly before the handle, and all other handles keep their order |
| Lists.OFList.InsertAfter | src/OFList.m:165-187 | the new node comes directly behind the handle, and all other handles keep their order |
| Lists.OFList.RemoveListObject | src/OFList.m:189-206 | the handle goes, and all others keep their order |
| Lists.OFList.RemoveAllObjects | src/OFList.m:277-291 | no node is left, while the count stays too high by as many |
| Lists.OFList.ContainsObject | src/OFList.m:251-262 | the answer is yes exactly if an equal object is in the list |
| Lists.OFList.IsEqual | src/OFList.m:223-249 | what is answered, and when the assertion fails, in terms of the contents and of how far the counts are off |
| Lists.OFList.Copy | src/OFList.m:293-326 | a copy has new nodes with the same objects and a right count |
| Lists.ComparedRightIff | src/OFList.m:223-249 | comparison is right for all contents if and only if both counts are off by the same |
| ListRuns.CountRightIff | src/OFList.m:277-291 | after any run of changes the count is the number of objects if and only if remove-all was never sent to a list with objects; it is never too low |
| ListRuns.Run | src/OFList.m:96-291 | every run of changes on the heap gives the objects and the count of the specification |
| ListRuns.CountGoesWrong | src/OFList.m:277-291 | one object and remove-all leave an empty list that counts one |
| SortedLists.StaysSorted | src/OFSortedList.m:45-56 | insertion keeps a list sorted under any total preorder |
| SortedLists.SortedBalance | src/OFSortedList.m:45-56 | after any run of insertions and removals the list is sorted and holds exactly what was inserted minus what was removed |
| SortedLists.OFSortedList.InsertObject | src/OFSortedList.m:45-56 | the search from the end puts the object behind all that are not greater, and all other handles keep their order |
| SortedLists.OFSortedList.RemoveListObject | src/OFList.m:189-206 | removal takes off that object only |
| ListEnumerators.OFListEnumerator.NextObject | src/OFList.m:448-463 | either a mutation is reported, or the next object is given |
| ListEnumerators.CountByEnumerating | src/OFList.m:390-417 | a batch is the next objects, and the state moves on except when the list ends within the batch |
| ListEnumerators.LastBatchRepeats | src/OFList.m:406-416 | from the last whole batch on every batch is the same |
| ListEnumerators.EndsIff | src/OFList.m:390-417 | a loop over a list ends if and only if the list is shorter than a batch or made of whole batches |
| ListEnumerators.DeliversAll | src/OFList.m:390-417 | a loop that ends got every object once and in order |
| Utf8.DecodeEncode | src/OFString.m:241-315 | decoding undoes encoding for every character below 0x110000, whatever follows |
| Utf8.EncodedIsAccepted | src/OFUTF8String.m:86-151 | what is encoded passes the check with its number of characters and decodes to them |
| Utf8.EncodeInjective | src/OFString.m:241-266 | different strings of characters have different encodings |
| Utf8.CharactersInOrder | src/OFString.m:241-266 | the smaller of two characters has the smaller bytes (section 1 of RFC 3629) |
| Utf8.StringsInOrder | src/OFString.m:241-266 | encoded strings compare byte by byte as the strings do character by character |
| Utf8.Check | src/OFUTF8String.m:86-151 | the check accepts exactly the strings of complete forms, and its length is the number of characters |
| Utf8.ReencodeAllIff | src/OFUTF8String.m:86-151 | an accepted string is the encoding of its characters if and only if every form in it is the shortest and none lies beyond the last character |
| Utf8.ValidIff | src/OFUTF8String.m:86-151 | the check accepts every string that section 3 of RFC 3629 calls UTF-8; what it accepts is such a string if and only if every form is the shortest, none lies beyond 0x10FFFF, and none begins 0xED with a second byte of 0xA0 or more |
| Utf8.WellFormedIff | src/OFUTF8String.m:86-151 | these are the strings of the grammar in section 4 of RFC 3629 |
| Utf8.OverlongIsAccepted | src/OFUTF8String.m:119-129 | a form of three bytes for a character of one byte passes the check |
| Utf8.SurrogateIsAccepted | src/OFUTF8String.m:119-129 | a surrogate passes the check |
| Utf8.BeyondIsAccepted | src/OFUTF8String.m:131-145 | a number beyond 0x10FFFF passes the check |
| Utf8.GetIndex | src/OFUTF8String.m:153-163 | the index is the number of characters before the position |
| Utf8.GetPosition | src/OFUTF8String.m:165-174 | the position is where the character of that index begins, and the exception is thrown exactly for an index beyond the characters |
| Utf8.BoundariesOrdered | src/OFUTF8String.m:153-174 | positions of characters and their indexes grow together, so that each conversion undoes the other |
| Utf8.LengthIsCount | src/OFUTF8String.m:86-151 | an accepted string decodes to as many characters as its length |
| Utf8.DecodeFrom | src/OFUTF8String.m:957-974 | the bytes from a position on decode to the characters from its index on |
| Utf8.CharacterAtIndex | src/OFUTF8String.m:957-974 | the character at an index is that of the decoded string |
| Base64.Encode | src/base64.m:43-97 | the loop over groups of three bytes gives the encoding of section 4 of RFC 4648 |
| Base64.Decode | src/base64.m:99-159 | the loop over groups of four characters appends what they decode to, until one is refused |
| Base64.DecodingOfEncoding | src/base64.m:43-159 | decoding undoes encoding for every sequence of bytes |
| Base64.EncodingOfDecodingIff | src/base64.m:99-159 | an accepted string is the encoding of what it decodes to if and only if padding stands only at the end and no bits are set below it |
| Base64.BitsBelowPadding | src/base64.m:99-159 | a string with a bit below the padding is accepted |
| Base64.PaddingInside | src/base64.m:99-159 | a string with padding inside is accepted |
| Base64.DigitsAreTheTable | src/base64.m:24-42 | the digits are those of section 4 of RFC 4648, and the value of each is its place |
| Base64.PublishedEncodings | src/base64.m:43-97 | what section 10 of RFC 4648 gives for "foobar", "fooba" and "foob" |
| IniStrings.OuterOfInner | src/OFINICategory.m:43-101 | reading back undoes escaping for strings without a backslash directly before f, r or n |
| IniStrings.CountOfOuter | src/OFINICategory.m:76-101 | each backslash directly before f, r or n adds a control character to what is read back |
| IniStrings.SurvivesIff | src/OFINICategory.m:43-167 | one string comes back from what is written for it if and only if it does not begin with a byte order mark and either needs no quotes and no enclosing white space is lost, or needs them and has no backslash directly before f, r or n |
| IniStrings.BackslashIsLost | src/OFINICategory.m:57-95 | a string that does not come back |
| IniStrings.MarkIsLost | src/OFUTF8String.m:1071-1088 | strings that begin with a byte order mark do not come back, with and without quotes, since cutting a string out of another drops it |
| IniStrings.EscapesWritten | src/OFINICategory.m:57-73 | what is written for each of the five characters that have an escape, and every other character as it is |
| IniStrings.QuotesWritten | src/OFINICategory.m:43-73 | which strings get quotes, both ways |
| IniStrings.WhiteSpaceTrimmed | src/OFINICategory.m:165-168 | exactly the white space around a string goes |
| IniCategories.StringLaws | src/OFINICategory.m:308-347 | setting a string changes the first value of the key or appends one, and no other line |
| IniCategories.ArrayLaws | src/OFINICategory.m:389-456 | after an array was set the key has exactly its values; other keys keep theirs and all other lines keep content and order |
| IniCategories.ArrayAt | src/OFINICategory.m:424-453 | the array goes to the first line of the key, or to the end |
| IniCategories.LineSurvivesIff | src/OFINICategory.m:153-181 | parsing what is written for one line gives that line if and only if it is a comment, or its key has no equals sign and does not begin like a comment and both strings come back |
| IniCategories.OFINICategory.WriteToStream | src/OFINICategory.m:486-516 | the header and the lines of a category that has lines, and nothing for one that has none |
| IniFiles.OFINIFile.ParseFile | src/OFINIFile.m:118-163 | the loop over the lines of a file gives the specified categories or exception |
| IniFiles.OFINIFile.CategoryForName | src/OFINIFile.m:100-116 | the first category of that name, or a new one at the end |
| IniFiles.OFINIFile.WriteToFile | src/OFINIFile.m:169-186 | the text of the file is that of its categories in order |
| IniFiles.FileSurvivesIff | src/OFINIFile.m:118-186 | what is written to a file and read from it again is the same categories, without those that have no lines, if and only if no name has a line break or zero character or begins with a byte order mark, and each line is written without a break, does not begin like a header, and comes back by itself |
| IniFiles.LineFeedIsLost | src/OFINICategory.m:503-510 | a line feed in a string without quotes and a key that begins with a bracket are lost |
| IniFiles.TwoSections | src/OFINICategory.m:486-516 | what is written for two categories with pairs and a comment, character by character |
| IniFileStreams.ParsesAlike | src/OFINIFile.m:138-160 | however the bytes of a file in UTF-8 arrive, reading its lines until nothing comes gives the bytes of all lines of its text, at most with an empty line too many, and parsing the strings made from them gives what the lines of the text give |
| IniFileStreams.TextDecodes | src/OFUTF8String.m:86-151 | the bytes of every text pass the check and decode to its characters |
| IniCategories.OFINICategory.StringForKey | src/OFINICategory.m:189-205 | the first value of the key, or the default |
| IniCategories.OFINICategory.ArrayForKey | src/OFINICategory.m:284-306 | all values of the key in order |
| IniCategories.OFINICategory.SetString | src/OFINICategory.m:308-347 | the loop is the specified change of the lines |
| IniCategories.OFINICategory.SetArray | src/OFINICategory.m:389-456 | the loop that removes and inserts while it goes is the specified change of the lines |
| IniCategories.OFINICategory.RemoveValueForKey | src/OFINICategory.m:458-484 | exactly the lines of the key go |
| XmlTrees.BuildsTree | src/OFXMLElementBuilder.m:61-171 | the events of any well-formed tree, in which each namespace has the prefix that its last declaration gives it, make the builder build exactly that tree, once, and leave its stack as it was |
| XmlTrees.BuildsKept | src/OFXMLElementBuilder.m:61-171 | the events of any tree that declares no empty prefix make the builder build that tree, once, without its default namespace declarations and repeated attributes, and leave its stack as it was |
| XmlTrees.ProperKept | src/OFXMLElement.m:730-741 | attributes with different names are all kept, in order |
| XmlTrees.KeptAre | src/OFXMLElement.m:730-741 | of any attributes, exactly the first of each name and namespace are kept, in their order |
| XmlTrees.PrefixesAre | src/OFXMLElementBuilder.m:88-97 | the prefix of a namespace is the name of the last attribute that declares it; without one, two namespaces have the prefixes "xml" and "xmlns" and no others have any |
| XmlTrees.BuiltPrefixes | src/OFXMLElementBuilder.m:61-126 | the element built from any acceptable tree has exactly these prefixes |
| XmlElementBuilders.OFXMLElementBuilder.FoundLeaf | src/OFXMLElementBuilder.m:128-171 | text and the like become a child of the innermost open element or are handed to the delegate |
| XmlElementBuilders.OFXMLElementBuilder.DidStartElement | src/OFXMLElementBuilder.m:76-100 | a new element is opened within the innermost open one, with the attributes that count and the prefixes of XmlTrees.PrefixesAre |
| XmlElementBuilders.OFXMLElementBuilder.DidEndElement | src/OFXMLElementBuilder.m:102-126 | the innermost element is finished, the outermost handed to the delegate, and a close tag with no open element reaches its callback or is an error |
| XmlElementBuilders.OFXMLElementBuilder.Feed | src/OFXMLElementBuilder.m:61-171 | over every run of events the objects on the heap amount to the trees of module XmlTrees |

## Left out

- OFLHADecompressingStream: its state machine has the design of OFInflateStream; only its window is modelled.
- OFInflateStream, variant for Inflate64: the wrap-around of its 16-bit lengths is not modelled.
- InflateStream.OFInflateStream.Turn: trees are values here, whose construction and walk on the heap are HuffmanBuilder.Construct and HuffmanWalks.WalkNodes; the bit reader is a class of its own, and the loops within the cases of the state machine are taken one turn at a time.
- DeflateBlocks.ReadCompressed: the source holds no compressor; the streams are those that RFC 1951 allows, described by their blocks.
- HuffmanBuilder.Construct: lengths above 32 are left out, for which the shift of the source is undefined; Deflate has none above 15.
- CachedStream.OFStream.ReadTillDelimiter: string decoding is a predicate on bytes; asynchronous reads, writing and write buffers are left out.
- CachedStream.OFKernelEventObserver.ProcessReadBuffers: observing for writing and the operating system's polling are left out.
- MapTables.OFMapTable.Run: retaining and releasing of keys and values, allocation failures and the wrap-around of the counter of mutations are left out; a comparison with an absent value is taken to be false.
- MapTables.OFMapTableKeyEnumerator.NextObject: what it gives once the buckets were moved with equal counters is left open, as the source then reads memory that is no longer the table's; the enumerator of values, which differs in what it returns, and enumeration with blocks are left out.
- ThreadPools.InvAlways: the counters do not wrap around, jobs neither dispatch nor wait themselves, and locks are acquired in the order of steps that the scheduler chooses.
- Sha2Hashes.OFSHA2Hash.GetDigest: the two classes of the source are one class with the constants of each; bytes are swapped only on output, and secure memory is left out. MD5, SHA-1 and RIPEMD-160 are left out.
- Hmacs.OFHMAC.SetKey: the two padded keys are values instead of arrays that are overwritten.
- SortedLists.OFSortedList.InsertObject: the subclass holds its list instead of inheriting from it.
- ListEnumerators.CountByEnumerating: the loop that calls it is the lemma about its places; the check for mutations between calls is left out.
- Utf8.GetPosition: an index beyond the number of bytes, for which the source reads beyond the final zero, is left out.
- Utf8.Check: other encodings and case mapping are left out; the byte order mark that the source drops in front of it is part of the model only where INI files are read.
- StreamTexts.AllTexts: a text is the bytes that the source makes a string from, before a byte order mark is dropped.
- IniCategories.LineSurvivesIff: numbers and booleans as values are left out.
- IniFiles.OFINIFile.ParseFile: a file is its text; other encodings than UTF-8 and the failures of opening and writing are left out.
- XmlElementBuilders.OFXMLElementBuilder.Feed: unknown entities, which are passed on to the delegate, are left out; so is parsing.
- Sockets, files, processes, run loops, DNS, TLS, JSON, property lists, archives and serialization: left out, as they would need the operating system or add easy members.
