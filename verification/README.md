# Verified model of the danmaku and codec cores

This project models the parts of the repository that compute rather than communicate, and proves what they are
for. The modules follow the source files.

* **TARS codec** (`Tars*.dfy`). Values are a recursive datatype; a map is the sequence of its entries in iteration
  order, and `Same` compares values without regard to that order. `TarsWire` and `TarsReader` describe the bytes and
  their reading, including the panic on a buffer that is too short as an outcome of its own. The serializer, the
  deserializer and the framing codec are classes that change their buffers in place and are proved against those
  descriptions. The results are a round trip up to a normal form, an exact account of what the normal form changes
  (`TarsNormalForm`, `TarsMeaning`), the bytes themselves (`TarsFormat`, `TarsFields`), the agreement of the zero-copy
  and the owned decoder, the independence of decoding from the chunks in which bytes arrive, which values the round
  trip excludes, and the exact relation between estimated and written size.
* **Frequency mask** (`Frequency*.dfy`). The ring of buckets is proved to be one counter that starts afresh after
  whole bucket sizes (`FrequencyMask`). Where its epochs start is said in closed form (`FrequencyEpochs`), runs are
  bounded (`FrequencyWindow`), and the bound is shown to be tight and the documented promise to fail
  (`FrequencyPromise`).
* **Streaming statistics** (`CountMaps`, `CounterTables`, `SpaceSaving`, `TalkerNames`, `Ranking`, `WordCounts`,
  `WordHeavyHitters`, `WordTracking`, `CollidingWords`, `WordEviction`, `RateSeries`, `StatisticsAggregator`). Ghost
  histories of the messages carry the true counts that the error guarantees speak of. The sketch's hash functions are
  arbitrary.
* **Bit streams** (`Bits`, `BitWriter`, `BitReader`, `BitScripts`) and **emulation prevention**
  (`EmulationPrevention`, section 7.4.1.1 of ISO/IEC 14496-10).
* **STT text and packets** (`SttText`, `SttPackets`).
* **CRC32** (`Crc32`, section 8 of RFC 1952). Words are bit-vectors.
* **JSON extraction** (`JsonBlocks`, `TrailingCommas`).
* **Stream ciphers of the request signer** (`StreamCiphers`; `Rc4Steps` and `Rc4Vector` follow RC4 through a published
  test vector, round by round).

`ByteStrings` and `Arithmetic` hold what several modules share.

## Where the code and its documentation differ

The model follows the code.

* README.md line 140 and the comment on `FrequencyMask` (mask_frequency.rs lines 6-9) promise at most
  `max_frequency` messages per window. The shift step clears the current bucket before it moves on, so every other
  bucket is always empty and the limit only holds within one bucket size after another, not in every window.
  `PromiseHoldsOnlyForZero` shows which configurations keep the documented promise (those that block everything),
  `IntervalBound` what holds instead, and `IntervalBoundIsReached` that nothing better does.
* The comment in `lazy_remove_trailing_commas` speaks of unescaped quotes; the code counts all of them.
  `CleanedIsProperIff` says exactly when that makes no difference to the result, `CommaInsideLiteralIsRemoved` shows
  a block on which it does.
* A one-byte integer is read back unsigned, so -128..-1 come back 256 larger although they are written as signed
  bytes. `MeaningSurvivesIff` says exactly which values are changed by that or by a map that loses entries,
  `MessageSurvives` which messages.
* `estimate_size` is described as the size needed, for capacity planning; it can be too small. `EstimateIsBoundIff`
  says exactly when it is, `SizeIsExact` by how much.
* `seek_bits` sets the bit position before it loads the byte. When it is refused past the end it has moved all the
  same, and the next `read_bit` answers with a bit of the byte loaded before. `SeekBits` and `SeekThenRead` describe
  this state, `RefusedSeekThenRead` is the smallest example.
* A newcomer that starts from a sketch estimate can push out a frequent word, whatever the hash function is, so the
  hybrid word counter does not track everything Space-Saving would. `HeavyWordsAreTracked` says what is kept,
  `GuaranteeOnlyForOne` when the plain guarantee holds, `FrequentWordIsLost` gives the stream on which it fails.
* Section 7.4.1.1 of ISO/IEC 14496-10 also asks for a final 03 after a payload that ends in 00. The writer adds none
  (`LastByteStays`).

## Model

| member | source | states |
|---|---|---|
| TarsTypes.TypeId | crates/tars-codec/src/types.rs:339-343 | every type has a wire number below 14 that `TypeOf` maps back to it |
| TarsTypes.TypeOf | crates/tars-codec/src/types.rs:345-367 | exactly the numbers from 14 on are no type |
| TarsRoundTrip.HeadRoundTrip | crates/tars-codec/src/de.rs:99-123 | a head of one or two bytes reads back as its tag and type and leaves what follows, for all 256 tags and 14 types |
| TarsRoundTrip.IntRoundTrip | crates/tars-codec/src/ser.rs:211-255 | the narrowed bytes of any 64-bit integer read back as that integer's normal form |
| TarsRoundTrip.StringRoundTrip | crates/tars-codec/src/ser.rs:269-280 | a valid string of fewer than 2^32 bytes reads back in either length form |
| TarsRoundTrip.BlobRoundTrip | crates/tars-codec/src/de.rs:242-248 | a byte blob of fewer than 2^31 bytes reads back whole |
| TarsRoundTrip.ValueRoundTrip | crates/tars-codec/src/de.rs:250-294 | main result: for every well-formed value, tag and trailing bytes, reading the written value returns the tag and the value's normal form and leaves exactly the trailing bytes |
| TarsRoundTrip.StructRoundTrip | crates/tars-codec/src/de.rs:192-203 | the fields of a struct come back up to its end marker, whatever the nesting |
| TarsRoundTrip.MapRoundTrip | crates/tars-codec/src/de.rs:215-227 | a map written in any order comes back as the entries inserted one after the other |
| TarsRoundTrip.ListRoundTrip | crates/tars-codec/src/de.rs:229-240 | a list comes back item by item |
| TarsFormat.KnownHeads | crates/tars-codec/src/ser.rs:187-196 | the head bytes of all fourteen types, with tags below and from 15 on, as literals |
| TarsFormat.KnownWideIntegers | crates/tars-codec/src/ser.rs:227-255 | integers of two, four and eight bytes are written most significant byte first, as literals |
| TarsFormat.KnownShortString | crates/tars-codec/src/ser.rs:269-280 | a string below 256 bytes has one length byte before it, in both kinds of strings |
| TarsFormat.KnownLongString | crates/tars-codec/src/ser.rs:269-280 | a longer string has four length bytes before it, most significant first |
| TarsFormat.KnownFloats | crates/tars-codec/src/ser.rs:257-267 | floats are written as their bit patterns, most significant byte first |
| TarsFormat.KnownBlob | crates/tars-codec/src/ser.rs:342-348 | a blob has a byte head and its length before it, in both kinds of blobs |
| TarsFormat.KnownList | crates/tars-codec/src/ser.rs:333-340 | the bytes of a list of two numbers, as literals |
| TarsFormat.KnownMap | crates/tars-codec/src/ser.rs:315-331 | the bytes of a map of one entry, as literals: keys have tag 0 and values tag 1 |
| TarsFormat.KnownStruct | crates/tars-codec/src/ser.rs:296-313 | the bytes of a struct, as literals: fields by ascending tag, whatever order they were put in |
| TarsFormat.EveryWidthIsRead | crates/tars-codec/src/de.rs:256-276 | main result: the reader takes every integer in every width that holds it and every string with the long length, also where the writer would have chosen a shorter form |
| TarsFormat.BlobHeadIsIgnored | crates/tars-codec/src/de.rs:242-248 | the head before the length of a blob is read over, whatever it says |
| TarsNormalForm.SameTransitive | crates/tars-codec/src/types.rs:41-63 | equality of values up to the order of map entries is transitive (with reflexivity and symmetry beside it) |
| TarsNormalForm.SameSymmetric | crates/tars-codec/src/types.rs:41-63 | equality of values up to the order of map entries is symmetric |
| TarsNormalForm.InsertAllLosesNothing | crates/tars-codec/src/de.rs:215-227 | inserting entries keeps all of them exactly when all keys differ |
| TarsNormalForm.MapKeepsEveryEntry | crates/tars-codec/src/de.rs:215-227 | a map comes back with as many entries as it had exactly when its keys stay different after narrowing |
| TarsNormalForm.IterationOrderIsIrrelevant | crates/tars-codec/src/ser.rs:315-331 | main result: two values that are equal up to the iteration order of the maps inside them, at any depth, come back as equal values, if no map loses entries |
| TarsNormalForm.PermutedEntriesComeBackSame | crates/tars-codec/src/ser.rs:315-331 | one map written in two orders comes back as equal maps, also if maps inside it lose entries |
| TarsNormalForm.NormIsIdempotent | crates/tars-codec/src/de.rs:256-294 | what has been through the wire once is not changed by going through it again |
| TarsMeaning.MeaningSurvivesIff | crates/tars-codec/src/de.rs:256-294 | main result: a value says the same after going over the wire, up to integer widths, string ownership and the kind of blob, exactly when no map inside it loses an entry and no integer inside it, map keys included, is in -128..-1 |
| TarsMeaning.IntegerSurvives | crates/tars-codec/src/de.rs:263-266 | an integer comes back unchanged exactly when it is outside -128..-1; inside it comes back 256 larger |
| TarsMarkers.ReadIsUnmarked | crates/tars-codec/src/de.rs:250-294 | on every byte string, what the reader builds holds no bare struct marker, save an end marker where one was asked for |
| TarsMarkers.MarkerBreaksRoundTrip | crates/tars-codec/src/de.rs:192-203 | a value with a bare marker that its normal form keeps never comes back as that normal form, whatever bytes follow |
| TarsMarkers.RoundTripsExactlyWhenUnmarked | crates/tars-codec/src/de.rs:250-294 | main result: among values of fitting sizes whose maps keep their entries, the round trip holds exactly for those without a bare struct marker |
| TarsModes.ModesAgree | crates/tars-codec/src/de.rs:256-294 | main result: on every byte string both modes consume the same bytes and build values equal up to owned and borrowed strings, or fail at the same place in the same way |
| TarsModes.ValuesAgree | crates/tars-codec/src/de.rs:250-254 | the same for a value with its head |
| TarsModes.OwnKeepsEquality | crates/tars-codec/src/types.rs:41-63 | replacing borrowed strings by owned ones makes no two different values equal and no two equal ones different |
| TarsMessages.MessageRoundTrip | crates/tars-codec/src/de.rs:35-92 | main result: the ten fields of a well-formed message read back as that message up to the widening of one-byte integers |
| TarsMessages.MessageSurvives | crates/tars-codec/src/de.rs:35-92 | a message comes back identical exactly when none of its four integer fields is in -128..-1 |
| TarsFields.FieldsComeInOrder | crates/tars-codec/src/ser.rs:164-174 | main result: reading a message value by value to its end finds exactly ten values with the tags 1 to 10 in that order, each the normal form of its field |
| TarsFields.FieldOrderIsFree | crates/tars-codec/src/de.rs:35-92 | main result: a receiver takes two neighbouring fields with different tags in either order |
| TarsFields.UnknownFieldIsSkipped | crates/tars-codec/src/de.rs:35-92 | a field with a tag outside 1 to 10 changes nothing |
| TarsFields.LaterFieldCounts | crates/tars-codec/src/de.rs:35-92 | of two fields with one tag the later counts |
| TarsMessages.BodyParsesBack | crates/tars-codec/src/de.rs:35-92 | the body, a map inside a blob, comes back entry by entry |
| TarsMessages.TextParsesBack | crates/tars-codec/src/de.rs:344-367 | context and status come back entry by entry in both modes |
| TarsMessages.ResponseDecodersAgree | crates/tars-codec/src/lib.rs:82-109 | on every byte string both response decoders return the same message or both fail alike |
| TarsStream.DecodeStep | crates/tars-codec/src/codec.rs:56-74 | a cut leaves fewer bytes than there were, so repeated decoding ends |
| TarsStream.DecodeStepExtends | crates/tars-codec/src/codec.rs:56-74 | bytes behind a complete frame never change what is decoded from it |
| TarsStream.DrainExtends | crates/tars-codec/src/codec.rs:56-74 | draining a longer buffer is draining the shorter one and then its remainder with the new bytes |
| TarsStream.DrainLeavesNoFrame | crates/tars-codec/src/codec.rs:56-74 | after draining, what is left holds no complete frame |
| TarsStream.ChunkingIsInvisible | crates/tars-codec/src/codec.rs:56-74 | main result: how a byte stream is cut into chunks never shows in the decoded messages or in the remainder |
| TarsStream.MessageStreamRoundTrip | crates/tars-codec/src/codec.rs:18-74 | main result: any messages encoded back to back and delivered in any chunks come back as exactly those messages in order, leaving the unfinished tail |
| TarsStream.ResponseRoundTrip | crates/tars-codec/src/lib.rs:82-109 | both response decoders recover the message of a single frame |
| TarsStream.UnfinishedFrameWaits | crates/tars-codec/src/codec.rs:56-74 | no proper prefix of a frame is decoded |
| TarsStream.FrameLayout | crates/tars-codec/src/codec.rs:18-49 | the first four bytes of a frame, most significant first, add up to its whole length, and the message follows |
| TarsStream.DecodeWaitsIff | crates/tars-codec/src/codec.rs:56-74 | `decode` waits exactly until as many bytes are there as the first four announce, panics on fewer than 4, and otherwise cuts that many off |
| TarsStream.ResponseNeedsItsLength | crates/tars-codec/src/lib.rs:82-109 | both response decoders refuse everything that is not exactly as long as its first four bytes say |
| TarsSize.SizeIsExact | crates/tars-codec/src/ser.rs:31-81 | main result: for every value and tag, bytes written plus bytes saved by narrowing integers and lengths are the estimate plus bytes forgotten, one per two-byte head and one per blob longer than 32767 |
| TarsSize.EstimateIsBoundIff | crates/tars-codec/src/ser.rs:31-81 | the estimate is an upper bound exactly when no more is forgotten than saved |
| TarsSize.SizeBound | crates/tars-codec/src/ser.rs:31-81 | for every value and tag, the bytes written are at most the estimate plus the bytes forgotten |
| TarsSize.EstimateIsBound | crates/tars-codec/src/ser.rs:31-81 | where nothing is forgotten the estimate is an upper bound |
| TarsSize.EstimateFallsShort | crates/tars-codec/src/ser.rs:31-81 | both corrections are needed: values whose size exceeds the estimate by exactly that much |
| TarsSize.KnownEstimates | crates/tars-codec/src/ser.rs:31-81 | the estimates of numbers of every width, as literals |
| TarsSerializers.TarsSerializer.WriteHead | crates/tars-codec/src/ser.rs:187-196 | appends the head whose reading is `HeadRoundTrip` |
| TarsSerializers.TarsSerializer.WriteBool | crates/tars-codec/src/ser.rs:198-209 | appends the bytes of the boolean; false has no payload |
| TarsSerializers.TarsSerializer.WriteI8 | crates/tars-codec/src/ser.rs:211-221 | appends the narrowest form of a one-byte integer |
| TarsSerializers.TarsSerializer.WriteU8 | crates/tars-codec/src/ser.rs:223-225 | appends a byte through its signed reinterpretation |
| TarsSerializers.TarsSerializer.WriteI16 | crates/tars-codec/src/ser.rs:227-235 | appends the narrowest form, falling through to the one-byte writer |
| TarsSerializers.TarsSerializer.WriteI32 | crates/tars-codec/src/ser.rs:237-245 | appends the narrowest form, falling through to the two-byte writer |
| TarsSerializers.TarsSerializer.WriteI64 | crates/tars-codec/src/ser.rs:247-255 | appends the narrowest form, falling through to the four-byte writer |
| TarsSerializers.TarsSerializer.WriteString | crates/tars-codec/src/ser.rs:269-280 | appends the short or the long string form |
| TarsSerializers.TarsSerializer.WriteStruct | crates/tars-codec/src/ser.rs:296-313 | appends fields by ascending tag and the end marker; succeeds exactly when every nested value can be written |
| TarsSerializers.TarsSerializer.WriteMap | crates/tars-codec/src/ser.rs:315-331 | appends the entries in iteration order; succeeds exactly when every key and value can be written |
| TarsSerializers.TarsSerializer.WriteList | crates/tars-codec/src/ser.rs:333-340 | appends the items; succeeds exactly when every item can be written |
| TarsSerializers.TarsSerializer.WriteSimpleList | crates/tars-codec/src/ser.rs:342-348 | appends the blob form |
| TarsSerializers.TarsSerializer.WriteValue | crates/tars-codec/src/ser.rs:350-384 | appends exactly the bytes that `ValueRoundTrip` reads; on failure only a prefix grows |
| TarsSerializers.TarsSerializer.EncodeMessageToInternalBuffer | crates/tars-codec/src/ser.rs:155-177 | appends the message bytes, whose fields come in the order that `FieldsComeInOrder` states, with the body as a blob |
| TarsSerializers.TarsSerializer.EncodeMessageToBuffer | crates/tars-codec/src/ser.rs:134-153 | the target gains exactly the message and the serializer's own buffer is as before, through all the swapping |
| TarsDeserializers.TarsDeserializer.ReadHead | crates/tars-codec/src/de.rs:99-123 | consumes exactly the head, or fails without a panic |
| TarsDeserializers.TarsDeserializer.ReadStruct | crates/tars-codec/src/de.rs:192-203 | result, consumption and failure are those of the reference reader, and the loop ends |
| TarsDeserializers.TarsDeserializer.ReadMap | crates/tars-codec/src/de.rs:215-227 | result, consumption and failure are those of the reference reader, also for huge and negative declared lengths |
| TarsDeserializers.TarsDeserializer.ReadList | crates/tars-codec/src/de.rs:229-240 | result, consumption and failure are those of the reference reader, also for huge and negative declared lengths |
| TarsDeserializers.TarsDeserializer.ReadSimpleList | crates/tars-codec/src/de.rs:242-248 | result, consumption and failure are those of the reference reader |
| TarsDeserializers.TarsDeserializer.ReadValueByType | crates/tars-codec/src/de.rs:256-294 | the mutual recursion ends and agrees with the reference reader for every type |
| TarsDeserializers.TarsDeserializer.ReadValue | crates/tars-codec/src/de.rs:250-254 | agrees with the reference reader whose round trip is `ValueRoundTrip` |
| TarsDeserializers.TarsDeserializer.ReadMessage | crates/tars-codec/src/de.rs:35-92 | agrees with the reference message reader and on success has consumed everything |
| TarsDeserializers.DecodeResponseFromBytes | crates/tars-codec/src/lib.rs:82-95 | the owned response decoder |
| TarsDeserializers.DecodeResponseZeroCopy | crates/tars-codec/src/lib.rs:97-109 | the zero-copy response decoder, and that it decides like the owned one |
| TarsCodecs.TarsCodec.EncodeByRef | crates/tars-codec/src/codec.rs:18-49 | the destination gains exactly one frame: four length bytes that count themselves, then the message |
| TarsCodecs.TarsCodec.Decode | crates/tars-codec/src/codec.rs:56-74 | waits without touching the buffer, or takes off one frame and reports its message or error |
| FrequencyMasks.FrequencyMask.ShiftIfNeeded | crates/platforms-parser/src/danmaku_mask/mask_frequency.rs:62-98 | the ring of buckets with its loop, its limit and its reset refines one counter that starts afresh at the epochs that `EpochsFollow` and `EpochsAreGrid` state; the invariant of the ring is kept |
| FrequencyMasks.FrequencyMask.Expire | crates/platforms-parser/src/danmaku_mask/mask_frequency.rs:78-88 | takes the counts of a bucket out of the global map whatever both hold, leaving no zero |
| FrequencyMasks.FrequencyMask.ShouldBlock | crates/platforms-parser/src/danmaku_mask/mask_frequency.rs:103-119 | blocks exactly when the refined counter has no room, and otherwise counts once |
| FrequencyMasks.FrequencyMask.Reset | crates/platforms-parser/src/danmaku_mask/mask_frequency.rs:122-137 | returns to the initial counter |
| FrequencyMasks.FrequencyMask.FreqMapIsSumOfBuckets | crates/platforms-parser/src/danmaku_mask/mask_frequency.rs:62-119 | in every reachable state the global map is the pointwise sum of the buckets, holds no zero and nothing above the limit |
| FrequencyMasks.ConfigFits | crates/platforms-parser/src/danmaku_mask/mask_frequency.rs:27-50 | what `new` makes of its arguments: a window of at least ten seconds, at least one bucket, and the largest buckets that fit |
| FrequencyEpochs.EpochsFollow | crates/platforms-parser/src/danmaku_mask/mask_frequency.rs:62-98 | main result: in every run, each epoch is the last point not after the event on the grid of bucket sizes from the epoch before, or the event's time once `bucket_count` whole sizes have passed or none was set |
| FrequencyEpochs.EpochsAreGrid | crates/platforms-parser/src/danmaku_mask/mask_frequency.rs:62-98 | main result: in a run without long pauses the epochs are first + size * floor((now - first) / size) |
| FrequencyEpochs.LateEventStartsEpoch | crates/platforms-parser/src/danmaku_mask/mask_frequency.rs:94-98 | after `bucket_count` whole sizes the epoch starts at the event |
| FrequencyWindow.EveryRunKeepsInv | crates/platforms-parser/src/danmaku_mask/mask_frequency.rs:62-119 | every run with ordered times keeps the invariant that ties the counter to the events accepted in the current epoch |
| FrequencyWindow.BlockedExactlyWhenFull | crates/platforms-parser/src/danmaku_mask/mask_frequency.rs:103-119 | main result: an event is blocked exactly when its hash has been accepted `max_frequency` times in the current epoch |
| FrequencyWindow.EpochNeverOverflows | crates/platforms-parser/src/danmaku_mask/mask_frequency.rs:103-119 | no epoch accepts a hash more than `max_frequency` times |
| FrequencyWindow.IntervalBound | crates/platforms-parser/src/danmaku_mask/mask_frequency.rs:62-119 | main result: any interval of k bucket sizes accepts a hash at most (k + 1) * `max_frequency` times |
| FrequencyPromise.IntervalBoundIsReached | crates/platforms-parser/src/danmaku_mask/mask_frequency.rs:62-119 | main result: that bound is tight: for every k, every positive bucket size and any two hashes a run accepts (k + 1) * `max_frequency` messages of one of them in k bucket sizes |
| FrequencyPromise.PromiseHoldsOnlyForZero | crates/platforms-parser/src/danmaku_mask/mask_frequency.rs:6-9 | main result: whichever hashes texts can have, if there are two, of all configurations that `new` can build the documented limit per window of the length asked for is kept exactly by those whose limit is 0 |
| FrequencyPromise.StraddleOverflows | crates/platforms-parser/src/danmaku_mask/mask_frequency.rs:62-98 | the run that breaks it, for any two hashes: twice the limit within two neighbouring milliseconds |
| FrequencyPromise.ZeroBucketSizeForgets | crates/platforms-parser/src/danmaku_mask/mask_frequency.rs:27-50 | with more buckets than milliseconds the mask remembers nothing and blocks only for limit 0 |
| CountMaps.SumUpdate | crates/platforms-parser/src/danmaku/statistics.rs:79-117 | the sum of the counters moves by the difference of one counter |
| CountMaps.FindMin | crates/platforms-parser/src/danmaku/statistics.rs:102-107 | returns some key with a smallest count |
| SpaceSaving.IncrementKeepsInv | crates/platforms-parser/src/danmaku/statistics.rs:79-117 | every increment, with any choice among equal smallest counters, keeps the Space-Saving guarantee |
| SpaceSaving.EveryRunIsBounded | crates/platforms-parser/src/danmaku/statistics.rs:79-117 | main result: after every run of at most 2^64-1 messages at most `capacity` counters sum to the number of messages, each over-counts its user by at most its error, and errors and untracked users stay at or below the smallest counter |
| SpaceSaving.HeavyHittersAreTracked | crates/platforms-parser/src/danmaku/statistics.rs:79-117 | a user with more than n/capacity of n messages is tracked |
| SpaceSaving.ErrorIsSmall | crates/platforms-parser/src/danmaku/statistics.rs:79-117 | no counter is off by more than n/capacity |
| SpaceSaving.TalkerHeavyHitters.Add | crates/platforms-parser/src/danmaku/statistics.rs:79-117 | the in-place increment is one step of that relation and keeps the guarantee |
| TalkerNames.EveryRunShowsLastNames | crates/platforms-parser/src/danmaku/statistics.rs:79-117 | main result: after every run each tracked user is shown under the name of the last message |
| Ranking.SortEntries | crates/platforms-parser/src/danmaku/statistics.rs:124-130 | lists exactly the entries by count descending, then by key |
| Ranking.TopIsUnique | crates/platforms-parser/src/danmaku/statistics.rs:119-140 | at most one list satisfies the description of the first n |
| Ranking.TopTalkers | crates/platforms-parser/src/danmaku/statistics.rs:119-140 | the list of the first n users with the names last seen |
| Ranking.TopTalkersAreUnique | crates/platforms-parser/src/danmaku/statistics.rs:119-163 | `top_n` and `into_top_n`, which differ only in ownership, can only return the same list |
| Ranking.TopTalkersAreComplete | crates/platforms-parser/src/danmaku/statistics.rs:119-163 | main result: every user whose true count exceeds the smallest reported count is in the list |
| Ranking.TopIsOrdered | crates/platforms-parser/src/danmaku/statistics.rs:119-140 | a top list has larger scores first and equal scores in lexicographic order of their keys, and nobody left out scores more |
| Ranking.FrequentTalkerIsReported | crates/platforms-parser/src/danmaku/statistics.rs:79-140 | main result: a user with more than 1/(n + 1) of the messages is among the first n reported, if the table has more than n places |
| WordCounts.RowsSumToTotal | crates/platforms-parser/src/danmaku/statistics.rs:197-203 | every sketch row sums to the number of words, for arbitrary hash functions |
| WordCounts.EstimateBounds | crates/platforms-parser/src/danmaku/statistics.rs:205-213 | the estimate lies between the true count and the total |
| WordCounts.LeastCollisions | crates/platforms-parser/src/danmaku/statistics.rs:205-213 | the estimate is at most every row's true number of collisions and equal to one of them |
| WordCounts.CountMinSketch.Add | crates/platforms-parser/src/danmaku/statistics.rs:197-203 | updating one cell per row keeps every cell equal to the true number of words that collide there |
| WordCounts.CountMinSketch.Estimate | crates/platforms-parser/src/danmaku/statistics.rs:205-213 | returns the least true number of collisions over the rows |
| WordHeavyHitter.IncrementKeepsInv | crates/platforms-parser/src/danmaku/statistics.rs:232-270 | every increment of the hybrid counter keeps true count <= count <= total for tracked words and true count <= smallest counter for the others |
| WordHeavyHitter.WordHeavyHitters.Add | crates/platforms-parser/src/danmaku/statistics.rs:232-270 | the in-place increment with the sketch updated first is one such step |
| WordTracking.SumAfterRun | crates/platforms-parser/src/danmaku/statistics.rs:232-270 | main result: after every run the counters sum to the number of words plus the total by which sketch estimates exceeded what Space-Saving would have given newcomers |
| WordTracking.HeavyWordsAreTracked | crates/platforms-parser/src/danmaku/statistics.rs:232-270 | a word whose count times the capacity exceeds that sum is tracked, whatever the hashes are |
| WordTracking.NoSketchNoSurplus | crates/platforms-parser/src/danmaku/statistics.rs:259-263 | without a sketch there is no such excess, so more than n/capacity of n words is enough |
| CollidingWords.CollidingWordsExist | crates/platforms-parser/src/danmaku/statistics.rs:190-203 | main result: for all hashes, every size of the sketch and every set of stop words there are as many different words as one likes that pass the filter and share their column in every row |
| WordEviction.EveryRunHasShape | crates/platforms-parser/src/danmaku/statistics.rs:232-270 | on the stream of such words every run, whichever of several smallest counters it evicts, passes through the same counts |
| WordEviction.FrequentWordIsLost | crates/platforms-parser/src/danmaku/statistics.rs:190-270 | main result: for all hashes, every size of the sketch and every capacity above 1 there is a stream of 2 * capacity + 3 words that pass the filter on which every run loses a word that came 4 times |
| WordEviction.GuaranteeOnlyForOne | crates/platforms-parser/src/danmaku/statistics.rs:190-270 | main result: for each single hash function, size of the sketch and set of stop words, a word with more than n/capacity of n words is sure to be tracked exactly when the capacity is 1 |
| WordHeavyHitter.WordHeavyHitters.ScoreIsBounded | crates/platforms-parser/src/danmaku/statistics.rs:272-278 | every tracked word's score lies between its true count and the total |
| WordHeavyHitter.WordHeavyHitters.TopWords | crates/platforms-parser/src/danmaku/statistics.rs:288-303 | returns the first n by score, then by word |
| WordHeavyHitter.WordHeavyHitters.TopWordsAreComplete | crates/platforms-parser/src/danmaku/statistics.rs:288-303 | a word whose true count exceeds the smallest reported score is reported |
| RateSeries.SeriesIsSuffixOfGroups | crates/platforms-parser/src/danmaku/statistics.rs:461-504 | main result: for times in any order the finalized series is the last min(k, max points + 1) of the k runs of messages that share a bucket |
| RateSeries.GroupsAreHistogram | crates/platforms-parser/src/danmaku/statistics.rs:461-494 | main result: for ordered non-negative times those runs are the true histogram: only non-empty buckets, aligned, strictly increasing starts, exact counts, every message covered |
| RateSeries.KeptPlusDroppedIsTotal | crates/platforms-parser/src/danmaku/statistics.rs:461-504 | kept and dropped counts together are the number of messages |
| RateSeries.BucketStartIsTowardsZero | crates/platforms-parser/src/danmaku/statistics.rs:488-494 | a bucket starts at the multiple of its length next to the time in the direction of zero, also before 1970 |
| Statistics.StatisticsAggregator.UpdateRateBucket | crates/platforms-parser/src/danmaku/statistics.rs:461-486 | the in-place update is one step of the bounded series |
| Statistics.StatisticsAggregator.RecordMessage | crates/platforms-parser/src/danmaku/statistics.rs:411-442 | keeps total = chat + gift = number of times and hands user, words and time to the three summaries, words only for chat |
| Statistics.StatisticsAggregator.Finalized | crates/platforms-parser/src/danmaku/statistics.rs:496-524 | the report holds the counts, the top lists and the bounded histogram of all recorded messages, the time of the first one and the seconds since then, never negative; every user with more than 1/(max talkers + 1) of the messages is in it |
| Statistics.KnownSizes | crates/platforms-parser/src/danmaku/statistics.rs:377-408 | the sizes that the default configuration asks for, as literals |
| BitWriters.BitWriter.WriteBit | crates/bytes-util/src/bit_write.rs:20-34 | the written bits grow by one, whether or not a byte completes |
| BitWriters.BitWriter.WriteBits | crates/bytes-util/src/bit_write.rs:40-57 | appends the field most significant bit first; a value that does not fit changes nothing |
| BitWriters.BitWriter.Align | crates/bytes-util/src/bit_write.rs:66-72 | pads with zeros to the next byte |
| BitWriters.BitWriter.Finish | crates/bytes-util/src/bit_write.rs:60-63 | the bytes spell the written bits with zero padding |
| BitWriters.BitWriter.WriteBytes | crates/bytes-util/src/bit_write.rs:107-118 | appends the bits of the bytes at any bit position |
| BitReaders.BitReader.ReadBit | crates/bytes-util/src/bit_read.rs:25-35 | in every reachable state takes the first of the bits ahead and moves on by one; fails exactly when there is none, and then changes nothing |
| BitReaders.BitReader.AheadIsRestOfStream | crates/bytes-util/src/bit_read.rs:25-35 | the bits ahead of a reader in step are the stream from its position on |
| BitReaders.BitReader.ReadBits | crates/bytes-util/src/bit_read.rs:45-57 | in every reachable state returns the number the next bits spell; fails exactly when there are too few ahead, which are then used up |
| BitReaders.BitReader.ReadBytes | crates/bytes-util/src/bit_read.rs:98-127 | in every reachable state returns the next bytes at any bit position; short only at a byte boundary |
| BitReaders.SeekArithmetic | crates/bytes-util/src/bit_read.rs:151-191 | truncated quotients and remainders of either sign add up to an exact move |
| Bits.HighBitFirst | crates/bytes-util/src/bit_read.rs:25-35 | the most significant bit of a byte comes first and the least significant one last |
| Bits.KnownNumber | crates/bytes-util/src/bit_read.rs:45-57 | the bits 1, 1, 0 spell 6 |
| BitReaders.BitReader.SeekBits | crates/bytes-util/src/bit_read.rs:151-196 | main result: in every reachable state a seek succeeds exactly when its target is not before the start and starts a byte or lies inside the stream; it lands there and says so. Refused before the start it changes nothing; refused past the end it has moved and kept the byte loaded before |
| BitReaders.SeekThenRead | crates/bytes-util/src/bit_read.rs:138-196 | main result: after a seek that moves, seek and read both succeed exactly when the target is a bit of the stream, which is then read; past the end the seek or the read fails, and after a refused seek the read returns a bit of the byte loaded before |
| BitReaders.RefusedSeekThenRead | crates/bytes-util/src/bit_read.rs:151-196 | a stream of one byte on which a read after a refused seek succeeds |
| BitReaders.SeekAndBack | crates/bytes-util/src/bit_read.rs:151-196 | from every state, seeking there and back returns to the same bit if both are bits the reader can be put before |
| BitScripts.WriteScript | crates/bytes-util/src/bit_write.rs:20-118 | any script of single bits, fields, bytes and alignments yields exactly its bits with zero padding |
| BitScripts.ReadScript | crates/bytes-util/src/bit_read.rs:25-127 | replaying the script on a stream that begins with its bits returns what was written |
| BitScripts.ScriptRoundTrip | crates/bytes-util/src/bit_write.rs:20-118 | main result: every script reads back from its own bytes |
| EmulationPrevention.EscapeSplits | crates/bytes-util/src/nal_emulation_prevention.rs:24-41 | cutting a payload into writes does not change the output |
| EmulationPrevention.RoundTrip | crates/bytes-util/src/nal_emulation_prevention.rs:24-77 | reading the written bytes returns the payload |
| EmulationPrevention.WholeOutputIsSafe | crates/bytes-util/src/nal_emulation_prevention.rs:24-41 | main result: the output holds no 00 00 00, 00 00 01 or 00 00 02, and every 00 00 03 is followed by a byte of at most 3 |
| EmulationPrevention.LastByteStays | crates/bytes-util/src/nal_emulation_prevention.rs:24-41 | the last byte written is the payload's own, so the output ends in 00 exactly when the payload does |
| EmulationPrevention.OverheadBound | crates/bytes-util/src/nal_emulation_prevention.rs:24-41 | a non-empty payload of length n gains at most (n - 1) / 2 bytes |
| EmulationPrevention.ZerosReachTheBound | crates/bytes-util/src/nal_emulation_prevention.rs:24-41 | a payload of zeros gains exactly that many |
| EmulationPrevention.EscapingWriter.Write | crates/bytes-util/src/nal_emulation_prevention.rs:24-41 | appends the escaped bytes and carries the zero count over |
| EmulationPrevention.UnescapingReader.Read | crates/bytes-util/src/nal_emulation_prevention.rs:48-77 | returns the next bytes of the payload, short only at the end |
| EmulationPrevention.StreamRoundTrip | crates/bytes-util/src/nal_emulation_prevention.rs:24-77 | main result: for every cutting into writes and reads the reads return a prefix of the payload, all of it once a read comes up short |
| SttText.UnescapeInverts | crates/platforms-parser/src/extractor/platforms/douyu/stt.rs:33-50 | main result: the two successive replacements undo the escaping of every string |
| SttText.TwoPassesAreOne | crates/platforms-parser/src/extractor/platforms/douyu/stt.rs:48-50 | on every string, escaped or not, the two replacements are one left-to-right scan |
| SttText.MapRoundTrip | crates/platforms-parser/src/extractor/platforms/douyu/stt.rs:62-96 | main result: decoding an encoded map returns it for every map and every iteration order |
| SttText.KnownText | crates/platforms-parser/src/extractor/platforms/douyu/stt.rs:33-71 | the encoded heartbeat map and a value with both special characters, as literals |
| SttText.CutAtFirst | crates/platforms-parser/src/extractor/platforms/douyu/stt.rs:80-96 | in any text, a part is cut at its first `@=`, and a part without one counts for nothing |
| SttText.SttEscape | crates/platforms-parser/src/extractor/platforms/douyu/stt.rs:33-43 | the loop computes the escaping |
| SttText.SttEncode | crates/platforms-parser/src/extractor/platforms/douyu/stt.rs:62-71 | the loop computes the encoding, which decodes to the map it enumerates |
| SttText.SttDecode | crates/platforms-parser/src/extractor/platforms/douyu/stt.rs:80-96 | the loop over the parts computes the decoding of any text |
| SttPackets.ParsePacket | crates/platforms-parser/src/extractor/platforms/douyu/stt.rs:133-164 | a parsed packet consumes at least 4 bytes and no more than there are, so parsing always advances |
| SttPackets.PacketsRoundTrip | crates/platforms-parser/src/extractor/platforms/douyu/stt.rs:107-186 | main result: packets back to back parse to their non-empty payloads in order, and then the rest is parsed |
| SttPackets.PacketLayout | crates/platforms-parser/src/extractor/platforms/douyu/stt.rs:98-127 | main result: every byte of a packet: both lengths count what follows the first, then the magic, the payload and a zero |
| SttPackets.HeartbeatIsPacket | crates/platforms-parser/src/extractor/platforms/douyu/stt.rs:23-28 | the packet of the heartbeat message is the literal that the code sends |
| SttPackets.AnyPacketParses | crates/platforms-parser/src/extractor/platforms/douyu/stt.rs:133-164 | packets with any second length, magic and last byte parse, so those of the server do |
| SttPackets.CutPacketWaits | crates/platforms-parser/src/extractor/platforms/douyu/stt.rs:133-151 | a packet that is cut short yields nothing |
| SttPackets.ParseAll | crates/platforms-parser/src/extractor/platforms/douyu/stt.rs:169-186 | the loop computes the parsing of arbitrary bytes |
| Crc32.ShiftsAreLinear | crates/platforms-parser/src/danmaku/writer.rs:407-424 | the shift steps of the table generator are linear over exclusive or |
| Crc32.EightShifts | crates/platforms-parser/src/danmaku/writer.rs:391-404 | eight shift steps are one table lookup and a byte shift |
| Crc32.GenerateCrc32Table | crates/platforms-parser/src/danmaku/writer.rs:407-424 | entry k of the table is eight shift steps of k, for all 256 |
| Crc32.Crc32Hash | crates/platforms-parser/src/danmaku/writer.rs:391-404 | main result: the table-driven loop equals the bit-at-a-time register of section 8 of RFC 1952 on every byte string |
| Crc32.KnownChecksum | crates/platforms-parser/src/danmaku/writer.rs:391-404 | the reference register gives the published checksum of the text "a" |
| Crc32.BurstIsDetected | crates/platforms-parser/src/danmaku/writer.rs:391-404 | main result: replacing up to four neighbouring bytes by others always changes the checksum |
| JsonBlocks.ScannerSeesCode | crates/platforms-parser/src/extractor/platforms/huya/extractor.rs:135-161 | the one-pass mode machine sees exactly the characters outside string literals |
| JsonBlocks.FindBlockEnd | crates/platforms-parser/src/extractor/platforms/huya/extractor.rs:130-164 | main result: the scanner returns the shortest non-empty prefix whose braces outside literals balance, and nothing exactly when there is none |
| JsonBlocks.NestedObjectIsBlock | crates/platforms-parser/src/extractor/platforms/huya/extractor.rs:120-164 | main result: an object with any nesting and any literal contents, escapes included, is cut out whole before any tail |
| JsonBlocks.BlockIsUnique | crates/platforms-parser/src/extractor/platforms/huya/extractor.rs:130-164 | the answer is determined |
| JsonBlocks.Find | crates/platforms-parser/src/extractor/platforms/huya/extractor.rs:125-127 | the first occurrence, or none anywhere |
| TrailingCommas.RemoveTrailingCommas | crates/platforms-parser/src/extractor/platforms/huya/extractor.rs:403-420 | main result: scanning from the right and deleting in place removes exactly the commas of runs directly before a closer at even quote parity of the original text |
| TrailingCommas.CommasGoBeforeClosers | crates/platforms-parser/src/extractor/platforms/huya/extractor.rs:403-420 | main result: after any text that does not end in a comma, a run of commas of any length goes exactly in front of } and ] after an even number of quotes, and stays in front of every other character |
| TrailingCommas.NoTrailingCommaIsLeft | crates/platforms-parser/src/extractor/platforms/huya/extractor.rs:403-420 | no removable comma is left |
| TrailingCommas.UnchangedExactlyWithoutPairs | crates/platforms-parser/src/extractor/platforms/huya/extractor.rs:403-420 | a text is left alone exactly when it has no removable pair |
| TrailingCommas.CleaningIsIdempotent | crates/platforms-parser/src/extractor/platforms/huya/extractor.rs:403-420 | cleaning twice is cleaning once |
| TrailingCommas.OnlyCommasAreRemoved | crates/platforms-parser/src/extractor/platforms/huya/extractor.rs:403-420 | everything but commas is kept, in order |
| TrailingCommas.QuoteCountIsRightIff | crates/platforms-parser/src/extractor/platforms/huya/extractor.rs:411-415 | the quote parity tells correctly whether a position is outside string literals exactly when an even number of escaped quotes precede it |
| TrailingCommas.CleanedIsProperIff | crates/platforms-parser/src/extractor/platforms/huya/extractor.rs:403-420 | main result: the cleaned text lacks exactly the trailing commas outside string literals if and only if an even number of escaped quotes precede every comma of a run before a closer |
| TrailingCommas.CommaInsideLiteralIsRemoved | crates/platforms-parser/src/extractor/platforms/huya/extractor.rs:411-415 | a block as the scanner cuts it out, with one escaped quote, out of whose literal the remover takes a comma |
| TrailingCommas.ExtractJsonText | crates/platforms-parser/src/extractor/platforms/huya/extractor.rs:124-172 | keyword, first brace, block and cleaning together; nothing exactly when no block opens there |
| StreamCiphers.TableIsConserved | crates/platforms-parser/src/extractor/platforms/douyin/abogus.rs:108-142 | main result: after any number of steps the table holds the same bytes, each as often |
| StreamCiphers.PermutationIsKept | crates/platforms-parser/src/extractor/platforms/douyin/abogus.rs:108-142 | a table that holds every byte value exactly once keeps doing so |
| StreamCiphers.TwoRunsCancel | crates/platforms-parser/src/extractor/platforms/douyin/abogus.rs:108-142 | main result: a second run from the same table undoes the first, because no input value enters the keystream |
| StreamCiphers.CryptoUtility.Advance | crates/platforms-parser/src/extractor/platforms/douyin/abogus.rs:114-139 | one pass of the loop body is one step of the reference walk over the table |
| StreamCiphers.CryptoUtility.TransformBytes | crates/platforms-parser/src/extractor/platforms/douyin/abogus.rs:108-142 | result and final table of the in-place loop are those of the reference walk |
| StreamCiphers.KnownKeystream | crates/platforms-parser/src/extractor/platforms/douyin/abogus.rs:108-142 | the first bytes of the keystream of a table that counts down, worked out by hand |
| StreamCiphers.Rc4Encrypt | crates/platforms-parser/src/extractor/platforms/douyin/abogus.rs:214-239 | the slice-key routine computes the reference cipher, which `PublishedVector` and `ScheduleDeterminesKey` pin down |
| StreamCiphers.Rc4EncryptInPlace | crates/platforms-parser/src/extractor/platforms/douyin/signature.rs:25-42 | the one-byte-key routine, with other arithmetic and in place, computes the same cipher under the one-byte key |
| StreamCiphers.Rc4IsInvolution | crates/platforms-parser/src/extractor/platforms/douyin/abogus.rs:214-239 | encrypting twice under one key returns the text |
| StreamCiphers.Rc4TableIsPermutation | crates/platforms-parser/src/extractor/platforms/douyin/abogus.rs:214-239 | for every key and length the cipher's table holds every byte value exactly once |
| StreamCiphers.ScheduleDeterminesKey | crates/platforms-parser/src/extractor/platforms/douyin/abogus.rs:214-225 | main result: two keys of one length up to 256 whose schedules agree after every round are equal |
| Rc4Vector.PublishedVector | crates/platforms-parser/src/extractor/platforms/douyin/abogus.rs:214-239 | main result: the published ciphertext for the key "Key" and the text "Plaintext" comes out |

## Left out

- TarsRoundTrip.ValueRoundTrip: strings are taken as valid UTF-8 shorter than 2^32 bytes and blobs, maps and lists as shorter than 2^31, the sizes the length fields can carry; a bare struct marker as a field is excluded, and `TarsMarkers.RoundTripsExactlyWhenUnmarked` shows that the round trip fails for every such value.
- TarsMessages.MessageRoundTrip: the same limits apply to the fields of a message.
- TarsSerializers.TarsSerializer.WriteValue: after a failed write only the prefix of the buffer is described, not the bytes appended before the failure.
- TarsDeserializers.TarsDeserializer.ReadValueByType: stack depth and the allocation of declared capacities are not modelled; declared lengths only bound loops here.
- Floats are bit patterns, and values are compared by structure: the equality of NaN or of the two zeros as map keys, the order and the hash of `TarsValue` (the hash of a large map depends on iteration order) are not modelled.
- `read_struct_naked`, the naked struct entry points, `estimate_message_size` and the validating code in simd.rs are not modelled.
- FrequencyMasks.FrequencyMask.ShouldBlock: takes the hash of the text as given; normalisation and the hash function are not modelled, and times and counters are unbounded naturals (counters never exceed `max_frequency`).
- Statistics.StatisticsAggregator.RecordMessage: takes the words of a message as given; normalisation, splitting and stop words are not modelled. A bucket duration of 0, on which the code panics here, is excluded.
- Statistics.StatisticsAggregator.Finalized: times are whole seconds; `current_stats`, `checkpoint` and `reset` are not modelled.
- Statistics.StatisticsAggregator.constructor: the saturation of the table sizes near the limit of `usize` is not modelled.
- WordCounts.CountMinSketch.Add: increments are by 1, the only amount the code uses.
- WordEviction.GuaranteeOnlyForOne: capacities so large that the failing run would saturate the counters (2^63 - 1 and more) are excluded; the words of the stream are small letters only.
- SpaceSaving.EveryRunIsBounded: runs longer than 2^64-1 messages, where counters saturate, are outside the guarantee.
- BitReaders.BitReader.SeekBits: sums of bit position and offset beyond 63 bits are excluded; a negative reported position wraps around as in a release build.
- BitReaders.BitReader.ReadBytes: the stream is an in-memory cursor; errors of other streams are not modelled.
- EmulationPrevention.UnescapingReader.Read: the zero counter wraps at 256 as in a release build, where a debug build would stop.
- EmulationPrevention.EscapingWriter.Write: the source uses one object for both directions; the zero counter that writes and reads would share on such an object is not modelled.
- SttPackets.ParsePacket: payloads are returned as bytes; the lossy conversion to text is not modelled.
- JsonBlocks.FindBlockEnd: positions are characters rather than bytes and the depth is unbounded (more than 2^32-1 open braces are not modelled); parsing the JSON afterwards is left to the library.
- StreamCiphers.CryptoUtility.constructor: the literal table of the source is a parameter of 256 bytes; that it is a permutation is a premise of `PermutationIsKept`.
- StreamCiphers.Rc4Encrypt: an empty key, on which the code panics, is excluded.
- MD5, SM3, the base64 variants, brotli, zlib and protobuf, all network tasks, HTTP clients and other platform extractors: input and output or libraries.
- Bilibili packet framing, query signing, IRC tags, cookies, base36 and the samplers would only add easy members.
