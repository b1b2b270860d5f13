# Token stream model

The tokenizer turns a disassembled function into *metatokens* (a vocabulary id followed by
inline digit ids), collects them per instruction and per block in one reused buffer, flattens
them to three integer arrays, bit-packs those into a CSV row, and later decodes the rows with
vectorised kernels. This project models that path and the small state machines around it.

* **The leased buffer** (`TokenSeqs`, `BufferState`, `NumpyArrays`, `TokenStore`, `LeasedBuffer`,
  `BufferProducer`, `BufferRuns`, `LeaseRuns`, `FlatLayout`). A function list leases its unused tail to one block
  list, which leases its own tail to one instruction list; all three write the same nine arrays, and
  a numpy view is an array together with a base offset. The meaning of the arrays is a sequence of
  blocks of instructions of metatokens plus what is still leased; the arrays must begin with flat
  "axes" computed from it. Growth replaces arrays in the middle of an instruction.
* **Flattening and rebuilding** (`RunLengths`, `Reconstruction`, `LiteralSegments`, `FunctionRows`):
  run lengths per block and per instruction, the conversion between run-length levels by a
  right-sided binary search, the v2 rule that ids of 256 and more start a metatoken, and the v1 rule
  with literal segments.
* **The bit codec** (`BitStrings`, `BitPacking`, `CompactCodec`, `CompactDecoders`): two packers, the
  scalar bit reader and the whole-array decoder with its five-byte windows.
* **Decode kernels** (`Masks`, `CarrierSigns`, `CarrierReference`, `InlineBytes`, `IdentityGather`,
  `ExpandedSources`, `BandReduction`): kernels over flat columns against the array programs they replaced.
  `ExpandedSources` builds call targets source by source and follows a source's bytes through the cut,
  the joined buffer and the gather.
* **State machines**: `FunctionDedup` and `Occurrences`, `LineEscapes` and `StringSidecar`,
  `VocabularyRuns`, `VocabularyManager` and `CanonicalBlocks`, `Identities`, `JumpTables` and
  `FooterEmission`, `InlineDigits`, `PostfixFix`.

Numpy primitives (`cumsum`, `searchsorted`, `add.reduceat`, `nonzero`, `repeat`, `packbits`, boolean
masks) are functions with their usual meaning. Code that changes things in place is a method over
arrays or a class; whole-array expressions are functions. An exception or an error return is an `Err`,
and error texts are shortened.

## What turned out to be conditional

Each item names the theorem with the exact condition and, in brackets, the lemma or method with
an input that fails it.

* `HeldIsAccepted` (`LosesOpenInsn`): adding a block whose instruction was never added silently drops
  that instruction's tokens; the buffer holds exactly what was appended if and only if that never
  happens.
* `AddBlock` (`AddTwice`): adding a filled block list a second time, after its lease has ended, is
  accepted and counts a block that was never filled. An add keeps the buffer valid if and only if the
  list is the live lease, or is empty, or the call is refused. An *empty* list of the same parent ends
  whatever lease is live at that moment, also when its own lease ended before, and so drops what
  another list holds (`EndedListDropsAnother`).
* `CbRleExactIff` (`ZeroRunIsMiscounted`): the run-length conversion is exact if and only if no outer
  run's end is followed by an inner run of length zero.
* `RunLengthAndLastType` (`LongSegmentIsTruncated`): segment lengths are stored in eight bits, so the
  v1 run lengths are the scanner's if and only if every literal segment has at most 255 ids;
  `ReconstructV1Inverts` inherits the condition.
* `ScanAccepts` (`EndBeforeStartIsAccepted`): the scanner reads exactly the streams without ambiguous
  ids whose literals pair up and whose running sum never drops below zero; the array program checks
  the pairing and both bounds of one, so it also answers where a literal ends before it starts.
* `DecodersAgree` (`CutInputIsAccepted`): the documentation calls both functions the reverse of the
  encoder. On bytes that end inside the last value the scalar reader refuses and the whole-array
  decoder answers, reading zeros; on all other bytes they agree.
* `RowLoads` (`WideIdIsNarrowed`): the reader keeps sixteen bits of every id, while the row format
  holds 33; a row comes back if and only if every id fits sixteen bits.
* `WalkEqualsReference` (`NegativeCountDiffers`): the flat reference agrees with a successful walk if and
  only if every kept node's slice is as long as its survivor count says, or no slot is a carrier and
  one of the two total lengths is 1, which numpy stretches. Counts clipped to a node's length, as
  `tokenizer/aligned_data/loader/batch_decode/_cutoff_walk.py:197` makes them, always fit
  (`ClippedCountsAgree`); a negative one makes the reference slice from the end.
* `PackersAgree` (`WideValueSpills`): the documentation calls the two packers byte-identical for every
  width. The carry buffer does not mask what it is given: what a value has above its field is mixed
  into the bits of the unfinished byte, where the bit matrix cuts it off. The bytes are the same if and
  only if each such bit falls on one that is set already; values that fit have none.
* `FusedEqualsSeparate` (`OverlapIsLost`): the fused band pass tests the identity band first, so it
  equals the separate computations if and only if no surviving id lies in both bands; for adjacent
  bands, as its callers pass them, it always does (`AdjacentBandsAgree`).
* `NumberedExactly` (`EmptyFirstName`, `ScatteredName`, `FoldStartsOver`): for functions in any order the
  rows of every name are numbered 0, 1, 2, ... if and only if the first function has a name, no name
  returns after a row of another one, and no function of another name is folded between two rows of a
  name, except between its first two. With contiguous names only the first condition remains
  (`NumberedFromZero`): the loop starts with the empty string as the previous name. The comment at
  `tokenizer/main_loop.py:418-420` says that a fold of a first-seen name restores that previous name;
  the code restores nothing, and with contiguous names such a fold cannot happen.
* `RightUnlessAgnosticFirst` (`AgnosticFirstHidesIsa`, `OtherFamilyIsRefused`,
  `OrderMattersWithoutFamily`): the recorded platform is right, in every order of arrival, if and only
  if there is no ISA at all, or the first registration names one and all others repeat it or share
  its family, which has a unified name.
* `RefusedOnOnePlatform`: on a vocabulary of one platform the platform is checked after the token is
  stored, so a refused token of another platform has an id from then on.
* `TargetIdsAgree` (`ZeroTargetIsNeverShared`): a footer's target id is the id of the block at that
  address if and only if the address is not zero, because address zero is never cached.
* `NoneLeftBroken` (`FloatAnnotationStaysBroken`): rewriting leaves no bare float exactly when the
  annotation id is no float id or there was nothing to rewrite.

## Model

| member | source | states |
|---|---|---|
| TokenSeqs.EndsAppend | tokenizer/token_lists.py:296-309 | committing a leased list's data behind a parent's is shifting the list's relative ends by where the parent's tokens end |
| BufferState.InsnAddedAxes | tokenizer/token_lists.py:271-318 | committing an instruction changes every flat array to that of the nesting with one more instruction |
| BufferState.BlockAddedAxes | tokenizer/function_token_list.py:254-288 | re-basing the leased block's ends makes the arrays those of the function with one more block |
| BufferState.BlockAddedRuns | tokenizer/function_token_list.py:280-283 | the block's instruction and metatoken counts extend the block axes |
| BufferState.BlockDroppedAxes | tokenizer/function_token_list.py:233-240 | releasing an empty block leaves every committed axis as it was |
| BufferState.InsnDroppedAxes | tokenizer/token_lists.py:279-286 | releasing an empty instruction leaves every committed axis as it was |
| NumpyArrays.Enlarged | tokenizer/function_token_list.py:426-433 | a reallocated array begins with everything the old one held and is zero behind it |
| NumpyArrays.AddToSlice | tokenizer/function_token_list.py:257 | in-place addition to a slice shifts exactly that slice |
| NumpyArrays.Rebase | tokenizer/token_lists.py:298 | shifting the leased tail in place keeps what the array held before it |
| TokenStore.EnsureTokens | tokenizer/function_token_list.py:425-433 | afterwards the requested ids fit and committed and uncommitted data are unchanged |
| TokenStore.EnsureTypes | tokenizer/function_token_list.py:435-446 | afterwards the requested types fit and committed and uncommitted data are unchanged |
| TokenStore.EnsureInsns | tokenizer/function_token_list.py:448-462 | afterwards the instruction arrays have a slot for the next label too, and hold what they held |
| TokenStore.EnsureBlocks | tokenizer/function_token_list.py:464-478 | afterwards there is a block slot, and the block arrays hold what they held |
| TokenStore.EnsureStore | tokenizer/function_token_list.py:421-478 | growth of any of the nine arrays keeps the meaning of all of them and gives all the room asked for |
| TokenStore.WriteToken | tokenizer/token_lists.py:108-118 | the three writes of an append turn arrays that mean a state into arrays that mean it with one more metatoken |
| TokenStore.CommitInsn | tokenizer/token_lists.py:294-318 | the writes of an instruction commit stay inside the arrays and mean the state with the instruction added |
| TokenStore.CommitBlock | tokenizer/function_token_list.py:252-283 | the writes of a block commit stay inside the arrays and mean the state with the block added |
| TokenStore.CopyStore | tokenizer/function_token_list.py:185-194 | a copy shares no array with the original and means the same |
| LeasedBuffer.FunctionTokenList.constructor | tokenizer/function_token_list.py:22-49 | a new list is valid, empty and unleased |
| LeasedBuffer.FunctionTokenList.Reset | tokenizer/function_token_list.py:151-175 | whatever was held, leased or counted is forgotten, also by a list that no longer carries what was added; no array is replaced, and every label and address slot is cleared |
| LeasedBuffer.FunctionTokenList.EndPosition | tokenizer/function_token_list.py:316-320 | the number of committed token ids |
| LeasedBuffer.FunctionTokenList.GetUsedArrays | tokenizer/function_token_list.py:322-335 | the flat layout of exactly the committed blocks, with their labels and addresses |
| LeasedBuffer.FunctionTokenList.Snapshot | tokenizer/function_token_list.py:177-198 | an independent list with the same committed blocks and no lease |
| LeasedBuffer.FunctionTokenList.View | tokenizer/function_token_list.py:200-223 | a second lease is refused; otherwise the new block list aims at the end of the committed data |
| LeasedBuffer.FunctionTokenList.AddBlock | tokenizer/function_token_list.py:225-288 | a foreign list is refused while a lease is live; the leased list becomes one more block, or nothing when it is empty; an empty list ends whatever lease is live; a filled list whose lease has ended is counted once more, and only then, without a refusal, the buffer stops being valid |
| LeasedBuffer.FunctionTokenList.CountEnded | tokenizer/function_token_list.py:254-288 | adding a filled list whose lease has ended ends the live lease and moves all counters on, unless the block arrays are full, in which case everything committed stays valid |
| LeasedBuffer.FunctionTokenList.ResizeViewArrays | tokenizer/function_token_list.py:290-305 | growing in the middle of an instruction keeps all data and re-aims the leased block list at the new arrays; refused exactly when nothing is leased |
| LeasedBuffer.BlockTokenList.EndPosition | tokenizer/token_lists.py:396-400 | the number of token ids of the open block's instructions |
| LeasedBuffer.BlockTokenList.View | tokenizer/token_lists.py:241-264 | a second lease is refused and the first one kept as it is; otherwise the label is written inside the arrays and the new instruction list aims at the block's end |
| LeasedBuffer.BlockTokenList.AppendAsInsn | tokenizer/token_lists.py:266-269 | exactly one instruction with these metatokens is added, or none when there are none; while an instruction is leased it is refused and nothing changes |
| LeasedBuffer.BlockTokenList.ResizeViewArrays | tokenizer/token_lists.py:320-350 | a resize request passed up with the block's partial usage leaves every live view aimed at the same logical place, with room for the next write on every axis; refused exactly when there is no lease here or above |
| LeasedBuffer.BlockTokenList.AddInsn | tokenizer/token_lists.py:271-318 | a foreign list is refused while a lease is live; the leased list becomes one more instruction, or nothing when it is empty; an empty list ends whatever lease is live; a filled list that is not the live lease is refused |
| LeasedBuffer.InsnTokenList.Append | tokenizer/token_lists.py:96-120 | refused exactly on a read-only list or when nothing is leased any more, and then nothing is written; otherwise one metatoken is appended, whatever reallocation that causes |
| LeasedBuffer.InsnTokenList.Extend | tokenizer/token_lists.py:122-130 | the metatokens are appended in order; refused like a single append, and an empty list of them never is on a list that may be written |
| BufferProducer.FillFunction | tokenizer/fill_constant_candidates.py:223-317 | filling the reused buffer leaves exactly the given labelled blocks, without empty instructions and blocks and without anything from before |
| BufferProducer.FillBlock | tokenizer/fill_constant_candidates.py:267-317 | one leased block is filled and added |
| BufferProducer.ReadBack | tokenizer/function_token_list.py:345-382 | iterating the buffer yields the nested tokens, labels and addresses it holds; it is refused exactly when an instruction occupies no token id |
| BufferProducer.HeldLabels | tokenizer/function_token_list.py:360-377 | for a producer's buffer the labels read back are each kept instruction's own |
| BufferRuns.RunKeepsWellFormed | tokenizer/token_lists.py:241-318 | over every sequence of calls on the leased lists no empty instruction or block is ever committed |
| BufferRuns.ResetForgets | tokenizer/function_token_list.py:151-175 | a run after a reset does not depend on anything before it |
| BufferRuns.Conservation | tokenizer/token_lists.py:96-120 | over every run each accepted metatoken is held or was lost with an instruction that was never added |
| BufferRuns.HeldIsAccepted | tokenizer/function_token_list.py:225-288 | the buffer holds the accepted metatokens, in order, if and only if none was lost that way |
| BufferRuns.LosesOpenInsn | tokenizer/function_token_list.py:233-240 | four calls that lose the appended metatoken |
| BufferRuns.Call | tokenizer/token_lists.py:96-318 | one call on the list leased at its level, accepted or refused, moves arrays, counters and views of all three lists by exactly one step of the model |
| BufferRuns.Execute | tokenizer/function_token_list.py:151-288 | any sequence of calls, whatever the buffer held before, leaves it valid and carrying exactly the state of the run |
| BufferRuns.ExecuteAndRead | tokenizer/function_token_list.py:345-394 | after any sequence of calls reading the buffer yields what the run committed, nested as appended, with labels and addresses |
| BufferRuns.AddTwice | tokenizer/function_token_list.py:225-288 | adding the same filled list twice is accepted and counts one block more than was added |
| LeaseRuns.Call | tokenizer/token_lists.py:96-318 | one safe call on any list leased since the last reset, ended or not, moves the arrays and every such list by one step of the machine |
| LeaseRuns.Execute | tokenizer/function_token_list.py:151-288 | any safe run over any lists leased since the last reset leaves the buffer valid and carrying exactly the state of the run |
| LeaseRuns.EndedListDropsAnother | tokenizer/function_token_list.py:233-240 | an ended empty list that is added again drops the block that is leased at that moment |
| BufferRuns.ProducerRunNests | tokenizer/token_lists.py:241-269 | a producer's run of single calls leaves the tokens nested as they were appended |
| FlatLayout.BlockPart | tokenizer/function_token_list.py:360-377 | the slices a block is cut from are the arrays of that block alone, its ends relative |
| FlatLayout.InsnPart | tokenizer/token_lists.py:432-450 | the slices an instruction is cut from are the arrays of that instruction alone |
| FlatLayout.IterBlocks | tokenizer/function_token_list.py:345-382 | the running indices yield every block's own arrays and labels, in order |
| FlatLayout.IterInsn | tokenizer/token_lists.py:421-455 | the running indices yield every instruction's own arrays and label; an instruction without token ids is refused |
| FlatLayout.GetRawTokenAt | tokenizer/token_lists.py:78-94 | exactly the metatoken at that index, or a refusal outside the list |
| FlatLayout.IterRawTokens | tokenizer/token_lists.py:70-76 | all metatokens of an instruction in order |
| FlatLayout.ReadNested | tokenizer/function_token_list.py:384-394 | reading by blocks, instructions and raw tokens gives back the nesting the arrays encode, with each block's labels |
| FlatLayout.LabelsJoined | tokenizer/function_token_list.py:375 | splitting the labels by block loses none and keeps their order |
| RunLengths.CaBarleToCbrle | tokenizer/utils.py:73-82 | the in-place differencing of the positions found; with CbRleExactIff, the counts of inner runs per outer run |
| RunLengths.SearchAtEnd | tokenizer/utils.py:78-79 | a right-sided search for where k runs end finds k, unless a run of length zero follows |
| RunLengths.CbRleExactIff | tokenizer/utils.py:73-82 | the conversion counts the inner runs of every outer run if and only if no outer end is followed by an inner run of length zero |
| RunLengths.ZeroRunIsMiscounted | tokenizer/utils.py:73-82 | an outer end in front of a run of length zero that is miscounted |
| RunLengths.CbRleExact | tokenizer/utils.py:74-75 | it is exact whenever the inner runs are positive |
| Reconstruction.ReducedRuns | tokenizer/main_loop.py:164-165 | summing instruction runs between the blocks' starts gives the token ids per block |
| Reconstruction.BuildVocabTokenizeAndIndex | tokenizer/main_loop.py:152-167 | the ids of all tokens, the ids per block and the ids per instruction, also for a list without tokens |
| Reconstruction.BoundariesAreStarts | tokenizer/function_token_list.py:86-90 | in a v2 stream the ids of 256 and more are exactly where metatokens start |
| Reconstruction.GapsAreLengths | tokenizer/function_token_list.py:91-96 | the gaps between boundaries are the metatokens' lengths, the last one running to the end |
| Reconstruction.CumSumIsEnds | tokenizer/function_token_list.py:102 | the cumulative gaps are the metatokens' ends |
| Reconstruction.MetaRunsFound | tokenizer/function_token_list.py:112 | metatokens per instruction follow from token ids per instruction |
| Reconstruction.InsnRunsFound | tokenizer/function_token_list.py:117 | instructions per block follow from token ids per block and per instruction |
| Reconstruction.ReconstructInverts | tokenizer/function_token_list.py:52-125 | under a v2 vocabulary rebuilding from the three written arrays gives back every number of the list, with n/a for each label and -0xDEADBEEF for each address |
| Reconstruction.ReconstructV1Inverts | tokenizer/function_token_list.py:98-125 | under a v1 vocabulary the same holds if and only if every literal segment has at most 255 ids |
| LiteralSegments.Scatter | tokenizer/utils.py:61-68 | writing the stored lengths into an array of ones; an index outside it is an error |
| LiteralSegments.RunLengthAndLastType | tokenizer/utils.py:30-70 | the loop and array expressions answer as ArrayForm does; unpaired or nested literals are refused; on every stream the left-to-right scanner reads the representatives are the scanner's, and the run lengths are exactly when all segments are at most 255 ids long |
| LiteralSegments.ScanRendered | tokenizer/utils.py:48-55 | the scanner reads back every sequence of ids and un-nested segments from its stream |
| LiteralSegments.ScannedItems | tokenizer/utils.py:48-55 | conversely every stream it reads is the stream of the well-formed items it reports |
| LiteralSegments.ScanAccepts | tokenizer/utils.py:43-55 | the scanner reads exactly the unambiguous streams whose literals pair up and whose running sum stays within zero and one, and nothing that the array program refuses for its literals |
| LiteralSegments.LongSegmentIsTruncated | tokenizer/utils.py:58 | a segment of 256 ids whose run length is not reported |
| LiteralSegments.EndBeforeStartIsAccepted | tokenizer/utils.py:53-55 | a literal that ends before it starts passes the checks and yields three run lengths for one representative |
| LiteralSegments.RunsCoverStream | tokenizer/utils.py:61-70 | the scanner's runs add up to the length of the stream |
| BitPacking.MatrixRowIsBits | tokenizer/compact_base64_utils.py:57-58 | a row of the bit matrix is the value, most significant bit first |
| BitPacking.PackBitsVec | tokenizer/compact_base64_utils.py:22-61 | the bytes of the header fields and values back to back, zero-padded; a field that does not fit is refused |
| BitPacking.WriteBits | tokenizer/compact_base64_utils.py:85-93 | one write of any value through the carry buffer: the bits written so far with the value's bits behind them, and what it has above its field mixed into the unfinished byte |
| BitPacking.PackBitsStreaming | tokenizer/compact_base64_utils.py:81-109 | for all inputs the same refusals as the bit-matrix packer, and the padded bytes of the bits the carry buffer gathers |
| BitPacking.PackersAgree | tokenizer/compact_base64_utils.py:22-109 | for all prefixes, widths and values the two packers give the same bytes if and only if no value sets a bit before its field; values that fit never do |
| BitPacking.WideValueSpills | tokenizer/compact_base64_utils.py:85-93 | a value wider than its field that sets the bit before it |
| BitStrings.PackedBits | tokenizer/compact_base64_utils.py:60-61 | unpacking packed bits gives the bits and zero padding |
| CompactCodec.WidthFor | tokenizer/compact_base64_utils.py:151-159 | the least width of at least two bits that holds every value |
| CompactCodec.LengthBitsFor | tokenizer/compact_base64_utils.py:162-167 | the least multiple of four bits that holds the length |
| CompactCodec.LeastWidthsDecide | tokenizer/compact_base64_utils.py:157-168 | the width and length checks accept exactly values below 2^33 and lengths below 2^32 |
| CompactCodec.NdarrayToBytes | tokenizer/compact_base64_utils.py:132-178 | the bytes of the array with the least widths; refused exactly when the array does not fit the format |
| CompactCodec.BitReader.Read | tokenizer/compact_base64_utils.py:112-126 | the next bits as a number; reading past the end is refused and consumes nothing |
| CompactCodec.BytesToNdarray | tokenizer/compact_base64_utils.py:181-200 | the values that the bytes encode as one number: width and length-field size in the first byte, then the length, then each value at its place; refused exactly when they encode none |
| CompactCodec.EncodesExactly | tokenizer/compact_base64_utils.py:112-126 | that number's fields are what the bit string spells out |
| CompactDecoders.WindowReads | tokenizer/compact_base64_utils.py:258-271 | width and bit offset never exceed 40 bits, so the five-byte window holds the whole value |
| CompactDecoders.LastWindow | tokenizer/compact_base64_utils.py:250-259 | with four bytes of padding all gathers are in range if and only if the last value starts inside the bytes |
| CompactDecoders.VecReads | tokenizer/compact_base64_utils.py:206-273 | what the whole-array decoder accepts, and which bits each of its values is |
| CompactDecoders.DecodersAgree | tokenizer/compact_base64_utils.py:181-273 | the two decoders return the same array or both refuse, exactly on bytes that do not end inside the last value |
| CompactDecoders.CutInputIsAccepted | tokenizer/compact_base64_utils.py:249-273 | a two-byte input that only the whole-array decoder accepts |
| CompactDecoders.RoundTrip | tokenizer/compact_base64_utils.py:132-273 | decoding an encoded array gives it back through either decoder, for all values below 2^33 and lengths below 2^32 |
| CompactDecoders.EncodedExactly | tokenizer/compact_base64_utils.py:132-178 | the encoder's bytes: the first byte, the fewest bytes that hold header and values, each value at its place in the number, and zero bits behind |
| FunctionRows.WriteRow | tokenizer/main_loop.py:365-375 | encoding a buffered function succeeds exactly when its three columns fit the format |
| FunctionRows.RowLoads | tokenizer/aligned_data/parsed_record_iter.py:304-357 | the columns of a written row, decoded, narrowed and rebuilt under a v2 vocabulary, give back every number of the list if and only if every id fits sixteen bits |
| FunctionRows.WideIdIsNarrowed | tokenizer/aligned_data/parsed_record_iter.py:357 | the id 65536 comes back as digit 0, which starts no metatoken |
| FunctionRows.ReadRow | tokenizer/inspector/_render/_ftl_backend/_variant_state.py:125-131 | iterating the list rebuilt from a row gives back the blocks, instructions and metatokens that were written |
| FunctionRows.Persist | tokenizer/main_loop.py:365-375 | a function whose ids fit sixteen bits, filled into the reused buffer, written and read back has the tokens it was given, nested as given, whatever the buffer held before |
| CarrierSigns.FindReal | dedup_hashmap/src/carrier_signs.rs:121-131 | the position of the k-th real raw token of a window, if the window has that many |
| CarrierSigns.WalkNode | dedup_hashmap/src/carrier_signs.rs:75-142 | one carrier, in order, for each surviving unpainted body slot with an id in the band: its block, and the sign of the raw token with as many real ones before it as the slot has unpainted ones; refused exactly when the body or raw window is missing or such a token is |
| CarrierSigns.RunKernel | dedup_hashmap/src/carrier_signs.rs:53-146 | the carriers of all kept nodes, back to back in order; refused exactly when one node is |
| CarrierReference.CarryAt | scripts/carrier_signs_byte_identity.py:79-86 | a non-empty segment's carry-in is the number of real slots before it, also with empty segments in between |
| CarrierReference.GlobalAt | scripts/carrier_signs_byte_identity.py:87-101 | the global prefix sum minus the carry-in is the index within the node |
| CarrierReference.ReferenceIsSegmented | scripts/carrier_signs_byte_identity.py:67-104 | the flat expressions yield each segment's carriers in order |
| CarrierReference.ReferenceCarrierSigns | scripts/carrier_signs_byte_identity.py:34-104 | the loop's chunks and segment arrays are those of the kept nodes for any kept indices, survivor counts and windows; a negative index counts from the end, one out of range is an error, and where slots and lengths differ in number the columns do not combine |
| CarrierReference.WalkEqualsReference | dedup_hashmap/src/carrier_signs.rs:53-146 | whenever the walk succeeds the flat reference returns the same carriers if and only if every kept node's slice is as long as its survivor count says, or there is no carrier and the slots or the lengths amount to one |
| CarrierReference.ClippedCountsAgree | tokenizer/aligned_data/loader/batch_decode/_cutoff_walk.py:193-197 | on survivor counts clipped at zero the two always agree |
| CarrierReference.NegativeCountDiffers | scripts/carrier_signs_byte_identity.py:53-64 | a negative survivor count that the walk skips and the reference does not |
| InlineBytes.SurvivingBytes | scripts/inline_bytes_byte_identity.py:34-74 | a call target that is not cut keeps all its digits; a cut one none if no surviving body slot consumes a raw token, and otherwise exactly those up to the end of the payload of the last real token consumed; refused exactly when there are fewer real tokens than such slots |
| InlineBytes.BuildInlineBytes | scripts/inline_bytes_byte_identity.py:77-100 | a zero byte, then exactly what each call target keeps, back to back and found at its slice |
| IdentityGather.Gather | scripts/identity_gather_byte_identity.py:36-77 | each call target contributes its first identities, one fewer than survive: entry j is the identity token with j identities before it in the raw stream, with all digits behind it and an offset that counts the digits before them |
| IdentityGather.IdentitiesBefore | scripts/identity_gather_byte_identity.py:53-58 | up to the n-th real token stand exactly the identities among the first n real tokens |
| IdentityGather.SlotsMatch | scripts/number_kernel_byte_identity.py:232-265 | in a matched stream surviving body slots and consumed real tokens hold the same number of identities |
| IdentityGather.AllSurvivorsGathered | scripts/identity_gather_byte_identity.py:49-58 | as many carriers are gathered as in-stream identities survive |
| IdentityGather.SlotGathered | scripts/number_kernel_byte_identity.py:232-265 | each surviving in-stream identity slot has the raw token it consumes gathered at its own rank |
| IdentityGather.PayloadKept | scripts/inline_bytes_byte_identity.py:57-72 | the cut keeps the whole payload of every surviving carrier |
| IdentityGather.GatherLandsOnPayload | scripts/identity_gather_byte_identity.py:36-77 | the gathered offset points at the carrier's own bytes: the joined buffer holds there the digits that follow it in its raw stream, all of them, inside its own slice, over any call targets and cuts |
| ExpandedSources.SourcesMatch | scripts/number_kernel_byte_identity.py:160-238 | every call target written as an own identity slot and then source by source is matched, wherever it is cut |
| ExpandedSources.PayloadOfSource | scripts/identity_gather_byte_identity.py:36-77 | every identity source whose slot survives the cut has exactly its own payload in the joined buffer, at the offset and length of the gathered entry of its rank among the identity sources |
| BandReduction.FamilyBandReductionOut.WalkNode | dedup_hashmap/src/family_band_reduction.rs:129-153 | one node's slots extend every output column by exactly that node's part |
| BandReduction.RunKernel | dedup_hashmap/src/family_band_reduction.rs:67-157 | for every node exactly the ids at positions below its survivor count are counted, by band; each identity but the node's first has its table entries, and each other number its chunk and owner, at its rank; nothing else is in the columns; refused exactly when the inputs disagree in length or a window is malformed |
| BandReduction.OnlyNumbersLose | dedup_hashmap/src/family_band_reduction.rs:133-149 | testing identities first loses exactly the number ids that are identities too |
| BandReduction.FusedEqualsSeparate | dedup_hashmap/src/family_band_reduction.rs:109-156 | the fused pass equals the three separate computations if and only if no surviving id lies in both bands |
| BandReduction.AdjacentBandsAgree | tokenizer/aligned_data/loader/batch_decode/_family_band_reduction.py:51-67 | for the bands its callers pass the fused pass always equals the separate computations |
| BandReduction.OverlapIsLost | dedup_hashmap/src/family_band_reduction.rs:133-149 | an id in both bands that is not counted as a number |
| BandReduction.InStreamOffsets | dedup_hashmap/src/family_band_reduction.rs:136-154 | each node owns max(count - 1, 0) in-stream slots, found at its offsets, and the last offset is the number of slots |
| FunctionDedup.FunctionDeduper.Resolve | tokenizer/function_deduper.py:357-417 | a function folds exactly when the first earlier function with equal name and identity key and equal comment, an empty one counting as none, has its body; it then gets that one's slot, and otherwise a slot never used before |
| Occurrences.ProcessFunctions | tokenizer/main_loop.py:390-473 | for functions in any order there is one row, in order and with its function's address, name and body, for each function that does not repeat the first body of its identity; each row's number counts on from the row before, from 0 behind a folded function of another name, and starts at 0 for another name; the counts are those of the rows |
| Occurrences.LoopIsRows | tokenizer/main_loop.py:390-473 | on contiguous names the carried counter is the number of rows of the current name, through folds and rollbacks |
| Occurrences.NewName | tokenizer/main_loop.py:390-394 | with contiguous names the first function of a name never folds and no row of the name exists |
| Occurrences.NumberedFromZero | tokenizer/main_loop.py:273-274 | with contiguous names the loop numbers every name's rows 0, 1, 2, ... if and only if the first function's name is not empty |
| Occurrences.NumberedExactly | tokenizer/main_loop.py:390-473 | for functions in any order the loop numbers every name's rows 0, 1, 2, ... if and only if every written function is in place: its name has no row yet, or the last row is its name's and no other name was folded since, or that row is its name's first |
| Occurrences.FoldStartsOver | tokenizer/main_loop.py:390-394 | a fold of another name between two rows of a name makes the second repeat the first one's number |
| Occurrences.EmptyFirstName | tokenizer/main_loop.py:273-274 | a first function without a name is numbered 1 |
| Occurrences.ScatteredName | tokenizer/main_loop.py:390-394 | a name that comes back after another one gets the number 0 twice |
| Occurrences.AddrToOccurrence | tokenizer/main_loop.py:562-571 | exactly the addresses of multiply-written names, the last row of an address deciding |
| Occurrences.EveryRowDecides | tokenizer/main_loop.py:562-571 | with distinct addresses each body of a multiply-written name keeps its own row's occurrence |
| LineEscapes.EscapeLine | tokenizer/string_sidecar.py:189-209 | the loop's escaped text |
| LineEscapes.EscapeTable | tokenizer/string_sidecar.py:31-54 | what is written for each of the 256 bytes |
| LineEscapes.EscapedAppend | tokenizer/string_sidecar.py:198-209 | lines are escaped byte by byte |
| LineEscapes.UnescapeLine | tokenizer/string_sidecar.py:211-258 | the loop reads unit by unit from the front and refuses the first malformed one |
| LineEscapes.UnescapeTable | tokenizer/string_sidecar.py:211-258 | what is read for each escape without hex text, and what is refused |
| LineEscapes.HexTable | tokenizer/string_sidecar.py:239-254 | which hex escapes are read, and as which byte |
| LineEscapes.MalformedRefused | tokenizer/string_sidecar.py:227-257 | an unknown escape, or a hex escape that is no number below 256, is refused whatever follows it |
| LineEscapes.UnescapedAppend | tokenizer/string_sidecar.py:218-258 | behind text that is read the rest of a line is read on its own |
| LineEscapes.UnescapeEscaped | tokenizer/string_sidecar.py:211-216 | unescaping undoes escaping for every byte string |
| LineEscapes.EscapedIsOneLine | tokenizer/string_sidecar.py:190-197 | escaped text never holds the line separator |
| LineEscapes.LenientHex | tokenizer/string_sidecar.py:243-248 | hex escapes are read more leniently than they are written |
| StringSidecar.StringSidecar.Add | tokenizer/string_sidecar.py:142-173 | the returned line holds the string; a repeated string and encoding returns its line and writes nothing; a closed file is refused |
| StringSidecar.StringSidecar.Close | tokenizer/string_sidecar.py:175-181 | nothing written changes, and nothing can be added |
| StringSidecar.LineAtReads | tokenizer/string_sidecar.py:261-309 | a line is read exactly when it exists and it and every line before it are well formed |
| StringSidecar.ReadSidecarLine | tokenizer/string_sidecar.py:294-309 | the scan returns that line, or refuses |
| StringSidecar.FileLines | tokenizer/string_sidecar.py:167-168 | the file splits into exactly the escaped entries |
| StringSidecar.EveryAddReadsBack | tokenizer/string_sidecar.py:142-173 | after any run of adds, the line number any add returned reads back that add's bytes, and there is one line per distinct string and encoding |
| StringSidecar.AddEach | tokenizer/string_sidecar.py:142-173 | a whole run of adds on a new file leaves exactly the run's entries, and each returned line holds its string |
| StringSidecar.AddAndReadBack | tokenizer/string_sidecar.py:261-309 | after a run of adds and a close, reading each returned line yields its string, and lines are equal exactly for equal strings and encodings |
| StringSidecar.SameLine | tokenizer/string_sidecar.py:161-164 | two adds return the same line if and only if string and encoding are equal |
| VocabularyRuns.RegisteredExtends | tokenizer/token_manager.py:447-526 | a registration never changes an id, keeps names distinct, and returns an id of at least 256 that holds the token |
| VocabularyRuns.RefusedNames | tokenizer/token_manager.py:453-475 | which names are refused, letter by letter |
| VocabularyRuns.RefusedOnOnePlatform | tokenizer/token_manager.py:447-517 | on a vocabulary of one platform exactly new tokens with an unacceptable name or another platform are refused; a token of another platform is stored before it is refused, so registering it again returns its id |
| VocabularyRuns.RefusedOnUnified | tokenizer/token_manager.py:447-517 | on a unified vocabulary exactly unacceptable new names and records that cannot be promoted are refused, and nothing changes |
| VocabularyRuns.RegisteredNames | tokenizer/token_manager.py:448-480 | after any run exactly the acceptable names among its registrations have an id |
| VocabularyRuns.FirstRegistrationDecides | tokenizer/token_manager.py:476-516 | over every run each id keeps the type and instruction type of its token's first registration, and a vocabulary of one platform records no platforms |
| VocabularyRuns.IdsInOrder | tokenizer/token_manager.py:476-480 | ids follow the order of first registrations |
| VocabularyRuns.RunExtends | tokenizer/token_manager.py:447-502 | over every run ids, types and instruction types stay what they were |
| VocabularyRuns.TableLandsInOrder | tokenizer/token_manager.py:472-474 | fresh names land at consecutive ids in order |
| VocabularyRuns.PlatformOfRun | tokenizer/token_manager.py:505-516 | over every run the recorded platform of a token depends on that token's own registrations only |
| VocabularyRuns.RecordedExactly | tokenizer/token_manager.py:547-592 | for arrivals of any families: nothing after an agnostic first one, the unified name once another ISA of the first one's family arrives, otherwise the first ISA |
| VocabularyRuns.RefusedExactly | tokenizer/token_manager.py:578-585 | an arrival is refused exactly when it and the first one differ in family, its own family has a unified name, and that name is not the record |
| VocabularyRuns.RightUnlessAgnosticFirst | tokenizer/token_manager.py:547-592 | for arrivals of any families the record is the sole ISA or the unified name of the ISAs' one family if and only if there is no ISA, or the first arrival is one and the others repeat it or share its family with a unified name |
| VocabularyRuns.AgnosticFirstHidesIsa | tokenizer/token_manager.py:567-569 | an ISA behind an agnostic first registration is not recorded |
| VocabularyRuns.OtherFamilyIsRefused | tokenizer/token_manager.py:580-585 | two families: the second arrival is refused in either order and the record keeps the first |
| VocabularyRuns.FirstWinsWithoutFamily | tokenizer/token_manager.py:574-578 | ISAs without a unified name are never promoted |
| VocabularyRuns.OrderMattersWithoutFamily | tokenizer/token_manager.py:574-578 | two orders of the same registrations with different records |
| VocabularyManager.VocabularyManager.constructor | tokenizer/token_manager.py:209-256 | the 256 digit slots with their names, unresolved and of no instruction type, and nothing registered |
| VocabularyManager.VocabularyManager.Grow | tokenizer/token_manager.py:479-498 | doubling keeps types, instruction types and platforms |
| VocabularyManager.VocabularyManager.AddToken | tokenizer/token_manager.py:439-545 | the maps stay inverse, the arrays stay aligned over doublings, and the state is that of one registration, including the token kept when a foreign platform is refused |
| VocabularyManager.RegisterEach | tokenizer/token_manager.py:439-545 | a whole run of registrations leaves lists, arrays and maps carrying the run's vocabulary, every call answering as in the run |
| VocabularyManager.VocabularyManager.PromoteToUnifiedPlatform | tokenizer/token_manager.py:547-592 | only the token's recorded platform changes, to what a second contributing ISA makes it; a cross-family collision changes nothing |
| VocabularyManager.VocabularyManager.PlatformId | tokenizer/token_manager.py:507-511 | platform ids and names stay inverse, and no id changes |
| CanonicalBlocks.CanonicalLayout | tokenizer/token_manager.py:674-715 | number and identity markers stand at ids 257 to 271 with their types and no instruction type, and stay there whatever is registered later |
| Identities.AllocationKeeps | tokenizer/tokens.py:1014-1038 | identities stay injective, dense and aligned with their descriptions, and a cached address keeps its identity |
| Identities.TokenResolver.GetIdentity | tokenizer/tokens.py:1014-1038 | one allocation in its category; all other categories are untouched |
| Identities.TokenResolver.ResetFunction | tokenizer/tokens.py:1040-1049 | every category starts over |
| JumpTables.Coalesce | tokenizer/fill_constant_candidates.py:123-146 | one table per recovered base in first-seen order, each with the first-seen-order union of all its targets |
| JumpTables.CoalescedExactly | tokenizer/fill_constant_candidates.py:123-146 | the tables are the bases named with a target, in the order they are first named; each has exactly the targets listed for it, once each, in the order they are first listed |
| JumpTables.TargetIdsAgree | tokenizer/fill_constant_candidates.py:34-51 | each target's identity is the one its address has if and only if the address is not zero |
| JumpTables.ZeroTargetIsNeverShared | tokenizer/tokens.py:1014-1038 | two mentions of address zero get two identities, and no block shares them |
| JumpTables.EmittedAgree | tokenizer/fill_constant_candidates.py:155-170 | the identities of all emitted footers still fit after the whole pass |
| JumpTables.TablesDescribed | tokenizer/fill_constant_candidates.py:155-170 | every new table identity is described by its base and targets |
| JumpTables.TargetsDescribed | tokenizer/fill_constant_candidates.py:34-51 | every new block identity is described by one of its addresses and the table whose footer is the first to name it |
| JumpTables.OneFooterPerTable | tokenizer/fill_constant_candidates.py:123-193 | exactly one footer per distinct base, recovered or known from a slot, with the union of its targets, empty only for slot-only tables, which keep their identity |
| JumpTables.FootersInOrder | tokenizer/fill_constant_candidates.py:155-193 | the recovered tables come first, then the slot-only tables in the order they were registered |
| FooterEmission.EmitJumpTableFooterFor | tokenizer/fill_constant_candidates.py:17-66 | one block of one instruction is added: the block definition, the table's token and one token for each target in order, with the table's label and address |
| FooterEmission.EmitRecovered | tokenizer/fill_constant_candidates.py:155-170 | one footer per recovered table, its identity allocated with all its targets |
| FooterEmission.EmitSlotOnly | tokenizer/fill_constant_candidates.py:172-193 | one footer without targets per slot-registered table that was not emitted; no identity changes |
| FooterEmission.EmitJumpTableFooter | tokenizer/fill_constant_candidates.py:69-193 | behind what it held the buffer has one such block for each footer of the whole pass, in order, and the resolver their identities |
| InlineDigits.EncodeInlineDigits | tokenizer/token_utils.py:262-270 | the type id followed by its payload; a digit as type id is refused |
| InlineDigits.DecodeInlineDigits | tokenizer/token_utils.py:272-296 | the type id and all digits up to the next token |
| InlineDigits.DecodeStream | tokenizer/token_utils.py:272-296 | decoding token after token recovers every sequence of tokens from its stream |
| InlineDigits.StreamOfDecoded | tokenizer/token_utils.py:272-296 | every stream that begins with a type id is the stream of the tokens decoded from it |
| InlineDigits.StartsAgree | tokenizer/function_token_list.py:86-90 | the starts found by the boundary rule in a stream are those of its decoded tokens |
| InlineDigits.IntToMinimumBytes | tokenizer/token_utils.py:298-307 | in either byte order the bytes read back to the integer, the first or the last byte weighing one, and no shorter payload does; negative values are refused |
| InlineDigits.BytesToInt | tokenizer/token_utils.py:309-314 | the integer of a payload whose last byte (big-endian) or first byte (little-endian) weighs one; an empty payload is refused |
| PostfixFix.FindBrokenFloatPositions | scripts/fix_postfix_fp_csv.py:221-239 | exactly the positions of float ids without a digit behind them, in rising order |
| PostfixFix.RewriteStream | scripts/fix_postfix_fp_csv.py:242-256 | every float id without a digit behind it is replaced by the annotation, every other id stays, and the number replaced is returned |
| PostfixFix.RewrittenStream | scripts/fix_postfix_fp_csv.py:35-39 | on every stream of tokens exactly the bare float markers are replaced |
| PostfixFix.BoundariesKept | scripts/fix_postfix_fp_csv.py:242-256 | every token boundary is kept |
| PostfixFix.NoneLeftBroken | scripts/fix_postfix_fp_csv.py:242-256 | no float is left broken exactly when the annotation is no float id or there was nothing to replace |
| PostfixFix.FloatAnnotationStaysBroken | scripts/fix_postfix_fp_csv.py:242-256 | an annotation that is itself a float id is as broken as before |
| PostfixFix.RewrittenTwice | scripts/fix_postfix_fp_csv.py:242-256 | rewriting again changes nothing |

## Left out

- LeasedBuffer.FunctionTokenList.AddBlock: the copying path for a filled block list that was built on its own or belongs to another function while nothing is leased; filling the buffer for a function adds leased lists only.
- LeasedBuffer.BlockTokenList.AddInsn: the same copying path for instructions, and a filled list whose lease was ended without committing it, added while another instruction is leased.
- LeasedBuffer.InsnTokenList.Append: a list whose lease has ended without committing it, while another list is leased; its writes land in the other list's part of the buffer. The same for Extend.
- LeasedBuffer.BlockTokenList.View: a block list whose lease has ended; and an instruction list's own one-slot label view, which keeps pointing at the old array after growth and is not read again before the instruction is committed.
- LeaseRuns.Execute: runs with a call that is not safe, which is one of the calls of the four lines above or adds a filled block list again; AddBlock and CountEnded say what the last one does.
- Views handed out earlier and used after a reset: the buffer's documentation declares them invalid.
- BitPacking.PackBitsVec: a header field of width zero; the header never has one.
- CompactCodec.WidthFor: the base-two logarithm is exact; the rounding of the floating-point logarithm is not modelled.
- CompactDecoders.VecReads: the widths of the result arrays; the Base64 text around the bytes (section 4 of RFC 4648) is the identity.
- InlineBytes.SurvivingBytes: run lengths above 65535, and streams that begin with a digit.
- Occurrences.ProcessFunctions: rows that fail while they are written; the digest stands for the body, and canonical names and their sanitising are inputs.
- VocabularyManager.VocabularyManager.AddToken: vocabularies of other format versions, vocabularies loaded from a list, and the caches of literal start and end tokens.
- FooterEmission.EmitJumpTableFooter: the early return on a v1 vocabulary, which emits nothing.
- StringSidecar.StringSidecar.Add: buffering and the file system; the file is a byte sequence.
- FunctionRows.RowLoads: remapping a record's ids to another vocabulary while it is read, and the example reader of `tokenizer/csv_files.py:236-257`, which builds a v1 vocabulary.
- FunctionRows.ReadRow: rows with ids of more than sixteen bits, which do not come back.
- Integer widths of the numpy arrays other than the eight-bit segment lengths, the 33-bit values and the 32-bit length.
- Token classes, disassembly providers, CSV and JSON plumbing, staged publishing, the remaining decode stages and the benchmark and fuzz drivers.
