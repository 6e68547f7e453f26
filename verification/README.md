# Three vendored cores: bzip2, gSOAP references, SFMT

This project models three pieces of code that the server ships in `dep/`, and
proves what they are for. `dafny verify dfyconfig.toml` checks the whole
project.

**bzip2 1.0.5, the codec.** The compressor and the decompressor are classes
with the program's arrays (`EState`, `DState` and the objects they are made
of); the methods update them as the C code does. Each stage is proved against
a specification function, and the stages compose to one theorem
(`WholeStream.DecompressOutput`): whatever calls of bzCompress led to
STREAM_END, a decompressor in either form, given the output in any pieces and
with any room for its own output, writes exactly the compressor's input.
bzCompress does get there (`WholeStream.FinishAll`), and the decompressor ends
with STREAM_END on the streams of a grammar of the format and on nothing else
(`DecodeExactly.DecompressExactly`).

- *Run lengths.* `Expand` says what the bytes of a block stand for. The
  compressor charges every input byte to exactly one block; the two resumable
  decoders meet one contract.
- *Block sort.* `IsBlockSort` is the order of cyclic rotations, equal ones in
  any order. The fallback sort (prefix doubling with a bitmap of buckets) and
  the main sort (radix, string quicksort, Shell sort, bucket synthesis,
  quadrants) are both proved to deliver it, and the choice between them is
  modelled with its budget.
- *Move to front and zero runs, Huffman codes, bits.* The encoder's forms and
  the decoder's two-level array, limit/base/perm tables and bit buffer are
  proved inverse to each other.
- *The decoder as a machine.* `BZ2_decompress` is a function on states, one
  constructor for every group of request labels, so that "suspended anywhere"
  is a statement about all splittings of the input. `DState` refines it with
  the arrays. `StreamGrammar` says what a stream is without the machine; the
  two agree on every input.
- *Checks and choices.* What the CRC detects, from the polynomial of its table;
  that the code lengths are Huffman's, of least total; and what each pass of
  the choice of tables does.

**gSOAP, forward references.** Memory is a map from addresses to words, and
the chains of pending references run through the very words that will be
patched. Looking up, entering and forwarding ids, resolving, relocating, and
saving the blocks of a growing array are methods on `Soap`; a ghost list of
tokens records every reference that was ever registered.

**SFMT, the random generator.** The state is replaced in place; the words
given out are proved to be those of one infinite recurrence, for any number of
calls. The recursion compiled in can be undone, so that the states of two seeds
never meet.

## Model

| member | source | states |
|---|---|---|
| WholeStream.DecompressOutput | dep/bzip2/bzlib.c:808-858 | given the whole output of a finished compression in any pieces, with any room, either form of the decompressor ends with STREAM_END and has written the compressor's input |
| DecodeExactly.DecompressExactly | dep/bzip2/bzlib.c:808-858 | for any input in any pieces, either form and any room: STREAM_END if and only if the input is a stream of the format, and the output is then what its blocks stand for |
| WholeStream.FinishAll | dep/bzip2/bzlib.c:407-464 | calls with BZ_FINISH, each with room for some bytes, come to STREAM_END, and all input has then been taken |
| WholeStream.ThereAndBack | dep/bzip2/bzlib.c:407-464 | both programs run on any input, with any level, work factor and room and either form: STREAM_END, and the input comes back |
| Piecewise.DecompressPieces | dep/bzip2/bzlib.c:808-858 | for any input, valid or not, cutting it into pieces and taking the output by roomfuls gives the bytes and the code of the input in one piece, but for bytes lost at the end; bytes are lost if and only if the form is FAST and the stream stops in a block that is cut short |
| BothForms.DecompressBoth | dep/bzip2/bzlib.c:536-804 | for any input, cut and taken as one likes for each form, both forms give the same code and SMALL gives all bytes of the outcome; FAST gives the same bytes if and only if the stream does not stop in a block that is cut short, and a proper prefix otherwise |
| BothForms.CutShortExactly | dep/bzip2/bzlib.c:632-634 | a block is cut short if and only if its last characters are four equal ones with the count missing |
| BothForms.FormsDiffer | dep/bzip2/bzlib.c:632-634 | a run of both forms on one complete input whose block is four equal characters: SMALL writes four bytes, FAST fewer, and both return DATA_ERROR |
| Piecewise.Feed | dep/bzip2/decompress.c:43-65 | input appended between calls is exactly what is added to the bits still unread |
| Decompressor.DState.BzDecompress | dep/bzip2/bzlib.c:808-858 | a call takes nothing from what is still to come, for every continuation of the input; OK means room full or input used up, the other codes give the verdict; after STREAM_END calls fail and change nothing |
| Decompressor.DState.Decompress | dep/bzip2/decompress.c:106-626 | BZ2_decompress runs the machine exactly as far as the input goes and keeps what it cannot use |
| Decompressor.DState.StepSymbol | dep/bzip2/decompress.c:74-102 | the decision on a code read so far, made with the group's limit, base and perm tables, is the machine's |
| Decompressor.DState.StepHeader | dep/bzip2/decompress.c:195-349 | outside the symbols the code takes the machine's step; the tables are made when the last code length is known |
| HeaderSteps.Answer | dep/bzip2/decompress.c:195-329 | the code between two requests, with its loops, leads where the machine says, for every state outside the symbols |
| HeaderSteps.UndoMtf | dep/bzip2/decompress.c:302-314 | rotating pos in place gives back the selectors whose positions were sent |
| Decompressor.DState.UnRleFast | dep/bzip2/bzlib.c:536-682 | writes the next bytes of the block's expansion until the room or the block is used up; corrupt only if the block does not end well, and then nothing of this call is given out and at least one byte and at most the room is left |
| Decompressor.DState.UnRleSmall | dep/bzip2/bzlib.c:706-804 | the same contract, but that a corrupt return has given out every byte of the block |
| Decompressor.DState.CloseBlock | dep/bzip2/bzlib.c:824-836 | a block whose CRC differs ends the stream as corrupt; otherwise the combined CRC takes it in |
| CrcLaw.BurstDetected | dep/bzip2/bzlib_private.h:155-175 | contents of one length that differ only within four neighbouring bytes have different CRCs, for every table whose low bytes are distinct |
| CrcLaw.AlteredIsCorrupt | dep/bzip2/bzlib.c:824-836 | a block altered like that under the CRC of the other content is found corrupt |
| CrcLaw.CombineInjective | dep/bzip2/bzlib.c:833-836 | the combined CRC tells apart both what came before and the block's CRC |
| CrcOrder.OrderTold | dep/bzip2/bzlib.c:833-836 | two CRCs combine to the same in either order if and only if they are equal or complements |
| CrcOrder.Interchanged | dep/bzip2/bzlib.c:833-851 | a stream in which two neighbouring blocks have been interchanged is found corrupt, after all its blocks have been written, if and only if their CRCs are neither equal nor complements |
| CrcTable.TableDetects | dep/bzip2/crctable.c:31-104 | the table of the polynomial 0x04c11db7 has distinct low bytes |
| CrcTable.TableEntries | dep/bzip2/crctable.c:31-104 | its entries at 0 and at the powers of two are the ones in the source, and every other entry is the exclusive or of those of its bits |
| CrcTable.FirstCrcs | dep/bzip2/bzlib_private.h:155-175 | the CRCs of no byte and of the byte 0xfe, in figures |
| Outcome.LeadsTransitive | dep/bzip2/bzlib.c:815-855 | supporting fact: what calls say of the rest of a stream composes over any sequence of calls |
| DecoderMachine.RunSplit | dep/bzip2/decompress.c:43-65 | suspending at any request and resuming gives the same state and the same unread bits as running on |
| StreamFuture.FutureAfterReading | dep/bzip2/decompress.c:139-195 | what the unread bits will give does not depend on how much has been read |
| StreamFuture.StreamRoundTrip | dep/bzip2/decompress.c:195-586 | header, blocks and trailer decode to the content of the blocks and the end of the stream, whatever follows |
| StreamExactly.EndsExactly | dep/bzip2/decompress.c:195-586 | the converse, on the bits of the input: it is decoded to the end if and only if it is 'B' 'Z' 'h' and a digit 1 to 9, blocks that begin with 31 41 59 26 53 59 and carry the CRC of what they expand to, 17 72 45 38 50 90 and the combined CRC, and anything after it; every field of a block has the form and range the format gives it |
| StreamExactly.BlockFound | dep/bzip2/decompress.c:223-484 | whatever bits the machine reads to the end of a block are the text of a block: header, mapping, selectors, delta-coded lengths by any detour, and codes that the tables take for symbols |
| GrammarRead.BlockTextRead | dep/bzip2/decompress.c:223-484 | every text of a block is read to its last column, also those that this encoder never writes |
| StreamExactly.OtherHeader | dep/bzip2/decompress.c:197-209 | another byte at any of the first four places is refused as not bzip2 |
| StreamExactly.OtherMagic | dep/bzip2/decompress.c:223-236 | another byte at any of the six places of a block's or the trailer's magic is corrupt data |
| StreamExactly.OtherCrc | dep/bzip2/bzlib.c:824-836 | a block whose CRC is not that of what it expands to is corrupt data, after it has been written |
| StreamExactly.OtherCombined | dep/bzip2/bzlib.c:844-850 | another combined CRC is corrupt data |
| StreamExactly.AfterBlocks | dep/bzip2/decompress.c:195-586 | wherever in a stream that happens, the sound blocks before it have been given out |
| BlockRoundTrip.BlockRead | dep/bzip2/decompress.c:223-463 | fed the bits of any valid block the machine stops with its last column and header, every later bit unread |
| MachineInvariant.ResumeSound | dep/bzip2/decompress.c:195-586 | every answer to a request, valid or not, leads to a sound state |
| MachineInvariant.RunSound | dep/bzip2/decompress.c:43-65 | for any input the machine stays sound, and asks for 1 to 20 bits at a time |
| SaveArea.SaveAreaSuffices | dep/bzip2/decompress.c:139-191 | the 24 saved scalars with the label and the fields of DState give back the state at every request, whatever the dead ones hold; nextSym, zt and zj are never live |
| Suspended.Call | dep/bzip2/decompress.c:139-191 | BZ2_bzDecompress keeps its contract with nothing kept of the machine's state between two calls but the label, the save area and the arrays; what stands for the local variables may hold anything on entry |
| Suspended.SaveState | dep/bzip2/decompress.c:593-621 | what is stored when a call ends, computed from the local variables and not from the arrays, holds the state together with the arrays |
| Suspended.RestoreState | dep/bzip2/decompress.c:167-191 | label and save area give back the local variables |
| SaveArea.PointersServe | dep/bzip2/decompress.c:77-88 | the saved table pointers are those of the table in use and the saved minimum length starts the group's next symbol |
| UndefinedInputs.UndefinedExactly | dep/bzip2/decompress.c:291-393 | a run leaves what C defines if and only if one of its answers is a selector too many, a digit too many, or a run that makes a count too large |
| UndefinedInputs.RunUndefinedExactly | dep/bzip2/decompress.c:379-393 | a run and the symbol after it leave what C defines if and only if the run has over 30 digits or its length and the count so far make more than an int |
| UndefinedInputs.SelectorInput | dep/bzip2/decompress.c:289-300 | 18003 selectors sent: an input of the first kind |
| UndefinedInputs.DigitInput | dep/bzip2/decompress.c:383-389 | 31 digits in a run: an input of the second kind |
| UndefinedInputs.CountInput | dep/bzip2/decompress.c:391-393 | thirty RUNBs after two equal characters: an input of the third kind |
| BlockStore.Store.Symbol | dep/bzip2/decompress.c:375-479 | the branches on nextSym do to the arrays what the machine does to the block, in both forms and on every error |
| BlockStore.Store.MapBytes | dep/bzip2/decompress.c:28-37 | seqToUnseq lists the bytes in use in order, the inverse of the encoder's mapping |
| BlockStore.Store.Invert | dep/bzip2/decompress.c:487-556 | from the counts of the last column to the table that is walked, in either form; the check on cftab never fails |
| BlockStore.Store.GetFast | dep/bzip2/bzlib_private.h:451-456 | the k-th read gives the k-th character of the walk; the range test on tPos never succeeds |
| BlockStore.Store.GetSmall | dep/bzip2/bzlib_private.h:475-479 | the same characters from the 16-bit and 4-bit arrays |
| InverseBwt.RankMovesBack | dep/bzip2/decompress.c:539-544 | the row that the rank map gives for row i starts a rotation equal to row i's rotation moved back by one character |
| InverseBwt.InverseTransform | dep/bzip2/compress.c:163-167 | for any block and any sort of it the walk from the origin's row reads the block, character by character |
| BwtStorage.InvertFast | dep/bzip2/decompress.c:539-544 | the loop leaves every row's character and successor in one word of tt |
| BwtStorage.FastReads | dep/bzip2/bzlib_private.h:444-456 | reading tt from its entry at the origin gives the characters of the walk |
| BwtStorage.ComputeT | dep/bzip2/decompress.c:504-514 | the first SMALL pass stores the rank map in 20 bits a row |
| BwtStorage.ReversePointers | dep/bzip2/decompress.c:516-525 | reversing the pointers inverts the map on exactly the cycle through the origin, and ends |
| BwtStorage.SmallReads | dep/bzip2/bzlib_private.h:475-479 | on a cycle that ReversePointers left, link by link, the SMALL reads are the characters of the walk |
| BwtStorage.IndexIntoF | dep/bzip2/bzlib.c:687-698 | for every row of the column the binary search returns the character whose bucket holds that row |
| SortChoice.SameColumn | dep/bzip2/blocksort.c:1053-1062 | any two sorts of a block have equal rotations in every place and the same last column |
| SortChoice.OneSortExactly | dep/bzip2/blocksort.c:1056-1061 | the sort, and with it the origin sent, is determined by being sorted if and only if no other rotation of the block equals the block |
| SortTies.OriginsDiffer | dep/bzip2/blocksort.c:1056-1061 | a run of both sorts on one byte repeated, of any length the main sort takes and with any budget: the main sort has the original rotation first, the fallback sort last |
| SortTies.UniformStored | dep/bzip2/bzlib.c:214-284 | bytes 251 in runs of 255 are stored as one byte repeated, so that such blocks arise |
| EqualQuadrants.StrictExactly | dep/bzip2/blocksort.c:964-985 | of two rotations with one first character the smaller quadrant is strictly before if and only if the rotations differ |
| EqualQuadrants.EqualsDifferExactly | dep/bzip2/blocksort.c:964-985 | when the main sort ends with budget left, some equal rotations have different quadrants if and only if the block is periodic and not one byte repeated; it must have, unless it is one byte repeated, a character besides the last one sorted that occurs at most 65534 times |
| EqualQuadrants.EqualsGraded | dep/bzip2/blocksort.c:987-1003 | a run of the main sort on one byte and a run of another, twice, with the budget of any work factor from 4 on: it is not spent, and the two equal rotations of the first byte end with different quadrants |
| SortChoice.EitherSortDecodes | dep/bzip2/blocksort.c:1056-1061 | whichever sort was used the decoder reads the block |
| Compressor.Sorter.BlockSort | dep/bzip2/blocksort.c:1031-1089 | short blocks and blocks whose budget is spent go to the fallback, others to the main sort; always the rotations are sorted, the block is intact and the origin is found; for one byte repeated it is the last place below 10000 characters and the first from there on |
| FallbackSort.FallbackSort | dep/bzip2/blocksort.c:212-329 | the rotations are sorted, periodic blocks included, and the block that the sort used as its own storage is there again; the equal rotations of one byte repeated come out backwards |
| FallbackSort.Round | dep/bzip2/blocksort.c:266-306 | one round refines an order by H characters with exact bucket marks to one by 2H; with nothing left to do every bucket is single |
| FallbackQSort.FallbackQSort3 | dep/bzip2/blocksort.c:93-180 | sorts and permutes its range for any pivots, and the stack never reaches the check at 99 entries |
| FallbackQSort.FallbackSimpleSort | dep/bzip2/blocksort.c:32-58 | sorts and permutes its range |
| BitTable.NextClear | dep/bzip2/blocksort.c:278-283 | the scan that skips whole words finds the first clear bit |
| BitTable.NextSet | dep/bzip2/blocksort.c:286-290 | the same for the first set bit |
| MainSort.MainSort | dep/bzip2/blocksort.c:751-1011 | with budget left the rotations are sorted, periodic blocks included; the block is as it was in any case; the equal rotations of one byte repeated come out forwards and cost nothing; at the end positions with one character have different quadrants, unless it was the last one sorted or occurs over 65534 times; where different characters follow each other at most twice it takes from the budget at most one comparison for each rotation outside any one bucket of a character twice |
| MainSort.StepTwo | dep/bzip2/blocksort.c:918-946 | after the scans of step 2 the small buckets of the other characters are in order and copyStart and copyEnd have met |
| MainBucket.Synthesised | dep/bzip2/blocksort.c:918-935 | the synthesised buckets hold their rotations in order, and buckets in order before stay so |
| MainSort.UpdateQuadrants | dep/bzip2/blocksort.c:987-1003 | step 3 keeps the overshoot and the quadrants' invariant, changes no quadrant of another character, and gives all positions of a bucket of at most 65534 places different ones |
| MainSort.QuadrantsUpdated | dep/bzip2/blocksort.c:987-1003 | the quadrants written in step 3 keep their invariant, read weakly for equal rotations |
| MainQSort.MainQSort3 | dep/bzip2/blocksort.c:621-717 | the range is in the order of whole rotations unless the budget is spent, and 22 of the 100 stack entries are enough for any pivots; two entries take one comparison from the budget |
| MainQSort.MainSimpleSort | dep/bzip2/blocksort.c:485-555 | the Shell sort of a range that agrees on d characters, with the same promise |
| MainQSort.MainGtU | dep/bzip2/blocksort.c:347-469 | compares whole rotations through quadrants without reading past nblock + 33 |
| MainRadix.RadixPairs | dep/bzip2/blocksort.c:802-830 | the radix pass leaves every rotation in the bucket of its first two characters |
| MainRadix.RunningOrder | dep/bzip2/blocksort.c:832-860 | the big buckets are listed each once, by size |
| Heap.PopLeast | dep/bzip2/huffman.c:101-102 | what is taken off the heap has the least weight, and the rest is a heap |
| HuffmanForest.MergeKeeps | dep/bzip2/huffman.c:100-110 | merging the two lightest trees keeps the forest, its depths and its total weight |
| HuffmanOptimal.DepthsCostLeast | dep/bzip2/huffman.c:100-110 | at every stage of pairing the two lightest, any lengths for the trees that fit the code space cost at least what their depths in the final tree do |
| HuffmanOptimal.TreeIsOptimal | dep/bzip2/huffman.c:114-119 | the depths of the leaves are a code of least total |
| HuffmanOptimal.HeavierIsShorter | dep/bzip2/huffman.c:114-119 | in a code of least total a heavier symbol never has the longer code |
| HuffmanLengths.MakeCodeLengths | dep/bzip2/huffman.c:63-148 | for every frequency table of one block the lengths are in range and use the whole code space; for the frequencies, scaled as often as the tree before was too deep and no oftener, no prefix code has a smaller total, and a heavier symbol never has the longer code; the rescaling ends |
| HuffmanCodes.AssignCodes | dep/bzip2/huffman.c:152-166 | every symbol gets the canonical code of its length |
| HuffmanCodes.PrefixFree | dep/bzip2/huffman.c:152-166 | for lengths that fit the code space no symbol's code starts another's |
| HuffmanCodes.CreateDecodeTables | dep/bzip2/huffman.c:170-200 | limit, base and perm are those of the lengths |
| HuffmanCodes.MakeTables | dep/bzip2/decompress.c:332-347 | the least and greatest lengths are found and the tables made for them |
| HuffmanCodes.LookUpFindsSymbol | dep/bzip2/decompress.c:90-100 | fed the bits of a code, the look-up asks for more before the last and gives the symbol at the last |
| HuffmanCodes.TablesDecode | dep/bzip2/decompress.c:74-102 | the tables fed a symbol's code bits and then anything return that symbol and leave the rest unread |
| TableChoice.PackedCosts | dep/bzip2/compress.c:334-385 | adding lengths two at a time in the halves of a word gives both sums |
| TableChoice.ChooseTables | dep/bzip2/compress.c:252-455 | whatever the symbols, the tables are complete prefix codes of at most 17 bits and every group of 50 has one; there are two, and one more from each of 200, 600, 1200 and 2400 symbols on; they come of four passes from tables that share the symbols out by frequency, and each pass gives every group the first of the tables that take the fewest bits for it, and every table the code of least total for its groups |
| BlockWriter.SendMtfValues | dep/bzip2/compress.c:239-597 | the block gets the tables chosen for its symbols, which are valid, and exactly the bits of its body are written |
| MtfEncoder.GenerateMtfValues | dep/bzip2/compress.c:120-231 | although the symbols are stored over the sorted order being read, no entry is overwritten before it is read, and symbols and counts are those of the last column |
| MtfEncoder.MakeMapsD | dep/bzip2/decompress.c:28-37 | the decoder's mapping is the list of bytes in use |
| Mtf.RoundTrip | dep/bzip2/decompress.c:375-479 | decoding the move-to-front symbols and bijective digits gives back the column, for any pending run |
| MtfArray.FastList.Decode | dep/bzip2/decompress.c:416-467 | the two-level array answers and changes as a plain move-to-front list, through its rebuilds |
| Rle.AddCharKeepsCharge | dep/bzip2/bzlib.c:260-284 | adding a byte charges exactly that byte to block and pending run, and at most five bytes are stored |
| Rle.RunsAreExpansion | dep/bzip2/bzlib.c:585-640 | the runs that the decoder takes are the expansion of the block; it ends well if and only if no count is missing |
| BlockFiller.Filler.AddChar | dep/bzip2/bzlib.c:260-284 | a byte more is charged, with the CRC and the bytes in use kept |
| BlockFiller.Filler.FlushRL | dep/bzip2/bzlib.c:252-256 | the pending run is stored, and the block never passes nblockMAX + 9 |
| BitIO.BitWriter.BsW | dep/bzip2/compress.c:57-79 | a field is appended to the bits written, for any width up to 24 |
| BitIO.BitWriter.FinishWrite | dep/bzip2/compress.c:46-53 | all bits are in bytes, padded by fewer than eight zeros |
| BitIO.BitReader.GetBits | dep/bzip2/decompress.c:43-65 | answers with the next n bits, or takes all input and keeps it when there are fewer |
| BitIO.WriteAndRead | dep/bzip2/compress.c:46-79 | fields written with BsW and finished, then asked for with GetBits and their widths, come back as written, and only the padding is left |
| BitIO.ReadBack | dep/bzip2/decompress.c:43-65 | the answers to requests of the same widths are the values written, whatever follows, and what follows is left |
| BlockSize.BlockLength | dep/bzip2/compress.c:239-597 | a block of n characters takes at most 17 bits for each, 6 for every 50, and a fixed rest |
| BlockSize.FitsBehind | dep/bzip2/compress.c:620-626 | what is written for one block fits in arr2 behind the block |
| BlockSize.QuadrantsFit | dep/bzip2/blocksort.c:1044-1051 | supporting fact: the quadrants behind the block and its overshoot end within arr2 |
| Compressor.EState.CompressBlock | dep/bzip2/compress.c:602-667 | the block is written after the header if it is the first, and the trailer after the last; it stands for exactly the input charged, and fits behind the block |
| Compressor.EState.HandleCompress | dep/bzip2/bzlib.c:361-403 | the turns end, everything is conserved, and the reason to stop is one of four |
| Compressor.EState.CloseFullBlock | dep/bzip2/bzlib.c:390-394 | a block that is closed for being full has from 100000 * level - 19 to 100000 * level - 10 bytes |
| Compressor.EState.BzCompress | dep/bzip2/bzlib.c:407-464 | the invariant holds over all call sequences; a call that is not refused goes on until there is output and no room, or all there was to do is done: RUN leaves no input then and gives RUN_OK if and only if it took or gave something, FLUSH_OK and FINISH_OK mean no room, and each FINISH_OK comes nearer to the end; a flush or finish takes exactly the input there was when it began; a refused call changes nothing |
| Compressor.EState.EndDecodes | dep/bzip2/bzlib.c:455-461 | after STREAM_END the output decodes to the input taken |
| BzStream.Stream.PutAll | dep/bzip2/bzlib.c:666-678 | the two halves of a total count bytes modulo 2^64 |
| SoapRefs.Soap.IdLookup | dep/gsoap/stdsoap2.cpp:5829-5907 | a reference gets the address of its id at once, or is chained through its own slot; nothing else changes |
| SoapRefs.Soap.IdForward | dep/gsoap/stdsoap2.cpp:5917-5964 | a reference by value is chained through its place, or listed, until its object is complete |
| SoapRefs.Soap.IdEnter | dep/gsoap/stdsoap2.cpp:5973-6027 | the id gets its address once; a second object, another type or another size is refused with its code and no change |
| SoapResolve.PatchAll | dep/gsoap/stdsoap2.cpp:2194-2215 | fails if and only if a fragment id has no object, and otherwise every chain is patched |
| SoapCopying.HasCopies | dep/gsoap/stdsoap2.cpp:2162-2178 | says exactly whether something inside the object still waits for a copy |
| SoapCopying.CopyRound | dep/gsoap/stdsoap2.cpp:2216-2258 | a flagged round leaves fewer waiting copies; an unflagged one changed nothing and nothing more can be copied |
| SoapCopying.Resolve | dep/gsoap/stdsoap2.cpp:2188-2270 | after SOAP_OK every slot that waited holds the address of its id, or still its link when the id has no object; settled slots keep theirs, and every copy that is not blocked is made |
| SoapGaps.AddressExactly | dep/gsoap/stdsoap2.cpp:2194-2215 | after a resolution a slot that waited holds the address of an object if and only if its id was entered, or an object begins at the slot that waited before it for the same id |
| SoapGaps.WrongObject | dep/gsoap/stdsoap2.cpp:2194-2215 | a run in which a reference to an id that is never entered ends with the address of another object, and every call succeeds |
| SoapGaps.DanglingReference | dep/gsoap/stdsoap2.cpp:2194-2215 | a run of two references to one id that is never entered: resolution succeeds and the second slot holds the address of the first |
| SoapGaps.MismatchExactly | dep/gsoap/stdsoap2.cpp:5973-6027 | an object of another type than the reference said is refused if and only if a place waits for a copy of it |
| SoapGaps.WrongType | dep/gsoap/stdsoap2.cpp:5973-6027 | a run in which a reference of one type gets an object of another, and every call succeeds |
| SoapUpdate.UpdatePtrs | dep/gsoap/stdsoap2.cpp:2107-2154 | every pointer of the table and every chain link that points into a moved range follows it |
| SoapBlocks.PushBlock | dep/gsoap/stdsoap2.cpp:2067-2081 | a block of n words is put in front of the others |
| SoapBlocks.FirstBlock | dep/gsoap/stdsoap2.cpp:2295-2312 | the chain of blocks is reversed in place, so that the oldest comes first |
| SoapSave.SaveBlock | dep/gsoap/stdsoap2.cpp:2385-2411 | all blocks end in one contiguous place, with every reference registered inside them, every target and every chain link at its new home |
| SoapOrder.SettledSurvives | dep/gsoap/stdsoap2.cpp:5848-5866 | a slot registered after its id was entered is right after a move if and only if its object was in none of the blocks |
| SoapOrder.StaleReference | dep/gsoap/stdsoap2.cpp:5848-5866 | a run in which resolution succeeds and a slot holds the address its object no longer has |
| Sfmt.SFMTRand.BRandom | dep/SFMT/SFMT.h:226-236 | the word given out is the next of the recurrence, for any number of calls |
| Sfmt.SFMTRand.Generate | dep/SFMT/SFMT.h:278-299 | replacing the state in place gives the next N states of the recurrence |
| Sfmt.SFMTRand.RandomInit | dep/SFMT/SFMT.h:155-173 | a seed starts its own sequence from the beginning: the state is filled from the seed and its first word at most adjusted |
| Sfmt.SeedDetermined | dep/SFMT/SFMT.h:164-169 | every word of the filled state determines the seed |
| Sfmt.FirstWords | dep/SFMT/SFMT.h:164-169 | the first words that seed 1 fills in, in figures |
| Sfmt.SeedsApart | dep/SFMT/SFMT.h:164-169 | the states filled from two seeds differ in every word |
| SfmtStep.BytesShifted | dep/SFMT/SFMT.h:139-140 | the shifts by bytes are those of the 128-bit number |
| SfmtStep.StepFigures | dep/SFMT/SFMT.h:135-148 | the mask and the shift of the lanes, in figures |
| SfmtStep.OldestDetermined | dep/SFMT/SFMT.h:135-148 | the oldest word that goes into a step is determined by the result |
| SfmtStep.NeverMerge | dep/SFMT/SFMT.h:278-299 | sequences that agree on 88 words in a row agree from the start: the generator can be run backwards |
| SfmtStep.SeedsNeverMeet | dep/SFMT/SFMT.h:155-299 | the generators of two seeds never have the same state after the same number of words |
| Sfmt.AdjustedIsCertified | dep/SFMT/SFMT.h:238-272 | the adjusted state has odd parity against the parity vector |

## Findings

Where the code, or a comment in it, does not do what it is for, a member states
the input and another the exact condition.

- **A reference can go stale.** soap_id_lookup gives a slot its address at once
  when the id is already entered (stdsoap2.cpp:5848-5866), and puts it in no
  chain. soap_update_ptrs follows chains only. When the object moves later, as
  the elements of a growing array do, the slot keeps the old address, and
  soap_resolve succeeds. `SoapOrder.StaleReference` is such a run;
  `SoapOrder.SettledSurvives` says when: if and only if the object was in one
  of the blocks saved. Slots registered before their id are always right
  (`SoapCopying.Resolve`).
- **Ids that are not fragments are not missed.** soap_resolve reports an id
  without object only when it starts with '#' (`SoapResolve.PatchAll`). A slot
  with any other id keeps its chain word: in `SoapGaps.DanglingReference` the
  second slot ends with the address of the first. When an object begins there,
  as a list node whose first member is the reference does, the second slot
  leads to it: `SoapGaps.WrongObject`. `SoapGaps.AddressExactly` says when a
  slot ends with the address of an object: if and only if its id was entered,
  or an object begins at the slot that waited before it for the same id.
- **Types are compared late.** soap_id_lookup compares types only when the id
  has its address already; a pending reference is compared by soap_id_enter,
  and only against copies, not against slots. `SoapGaps.WrongType` is a run in
  which a reference of type 7 gets an object of type 8;
  `SoapGaps.MismatchExactly` says when: the mismatch is refused if and only if
  a place waits for a copy of the object.
- **Three kinds of input make BZ2_decompress leave what C defines**: more
  selectors than selectorMtf holds, a run of more than 30 digits, and a run
  that makes a count of unzftab larger than an int, which is added before the
  block size is tested. `UndefinedExactly` and `RunUndefinedExactly` give the
  conditions, `SelectorInput`, `DigitInput` and `CountInput` an input of each.
  The encoder writes none of them (`StreamRoundTrip`).
- **The FAST form forgets output on a corrupt block.** unRLE_obuf_to_output_FAST
  returns before it writes its local copies back (bzlib.c:632-634), so that
  bytes already stored are not counted; unRLE_obuf_to_output_SMALL counts them.
  `BothForms.FormsDiffer` is a run of both forms on one input.
  `Piecewise.DecompressPieces` and `BothForms.DecompressBoth` say when: bytes
  are lost if and only if the form is FAST and the stream stops in a block that
  is cut short; `BothForms.CutShortExactly` says which blocks are. A block with
  a wrong CRC loses nothing, and SMALL never does.
- **"The same regardless" needs a condition.** The comment at
  blocksort.c:1058-1061 says that the stream is the same for both sorts. That
  follows from sortedness for the last column always (`SameColumn`), and for
  the origin if and only if no other rotation equals the block
  (`OneSortExactly`). On one byte repeated it is false: `SortTies.OriginsDiffer`
  runs both sorts, and the origins sent are 0 and the last place. Such blocks
  arise (`SortTies.UniformStored`). Either stream decodes to the block
  (`EitherSortDecodes`).
- **The quadrant invariant is weak.** The comment at blocksort.c:964-985 reads
  different quadrants as strict order. `EqualQuadrants.EqualsGraded` is a run of
  the main sort, within the budget of the usual work factors, that ends with
  different quadrants for two equal rotations.
  `EqualQuadrants.EqualsDifferExactly` says when: if and only if the block is
  periodic and not one byte repeated. `EqualQuadrants.StrictExactly` says what
  is left of the comment: the smaller quadrant is strictly before if and only if
  the rotations differ. "Not after" is enough for the sort (`QuadrantsUpdated`).

Two stacks of fixed size never overflow: mainQSort3 needs at most 22 of its 100
entries, and fallbackQSort3 stays below its check at 99, for blocks of up to
900000 (`MainQSort3`, `FallbackQSort3`).

## Left out

- Randomised blocks: the machine fails with its own error `Legacy`; this
  encoder never writes them.
- After one of the three undefined inputs nothing is modelled: the machine
  fails with `Undefined`.
- Decompressor.DState.BzDecompress: requires that no call has failed with a data
  error; the C code keeps its label then and may go on reading.
- SortChoice.OneSortExactly: says what sortedness determines; the order that
  each of the two sorts gives to equal rotations is worked out for blocks of
  one byte repeated, not for other periodic blocks.
- MainSort.MainSort: requires more than 34 characters; BlockSort calls it for
  10000 or more.
- Memory overlays other than the one of ptr and mtfv: block, classes, quadrants
  and output have arrays of their own. FallbackSort rebuilds its block from the
  classes; FitsBehind and QuadrantsFit are the bounds for the rest. The byte
  order of mtfv over ptr is little-endian.
- The decoding tables, the code tables of the encoder and zbits are sequences,
  made once and then only read, or only appended to; loops that C unrolls are
  loops.
- The mapping of the bytes in use is made when the tables are, not right after
  its bits; nothing reads it in between.
- Decompressor.DState.StepHeader: inUse16, inUse, selectorMtf, selector and len
  are sequences of the state, appended to in the order the program fills its
  arrays; pos is the array that is changed in place.
- SaveArea.SaveAreaSuffices: within a call DState holds the local variables as
  one value; `Suspended.Call` restores it from the label and the save area and
  stores it there again.
- CRC tables: both programs take any table of 256 words, the same one.
  `CrcTable` makes the one of crctable.c from its polynomial; the 256 figures
  are not listed.
- Allocation, parameter checks of the init functions, verbosity, assertion
  failures, and the stdio wrappers of bzlib.c.
- How well the tables compress: each pass is the best in each of its halves;
  nothing is said of the four together.
- SFMT: the class takes any recursion on four states; `SfmtStep` has the one
  that is compiled in, for the exponent 11213. IRandom, Random, URandom and
  RandomInitByArray are not modelled.
- gSOAP: memory is addressed by words, not bytes; an object of n words is
  copied by the default copy. Pointer levels above 0, copy callbacks, the
  attachment list, flag 0 of soap_save_block, nested block lists, and
  everything between XML and these calls are not modelled.
- SoapCopying.Resolve: requires that objects and the places that wait for
  copies lie in memory and that those places do not overlap; the parser's
  allocation sees to that, which is not part of this model.
