# Verified model of the Threema Web cores

A Dafny 4.11 model of the parts of Threema Web that carry hard, self-contained guarantees, with proofs.
`dafny verify dfyconfig.toml` checks everything.

- **Resumable session.** `ChunkCaches.ChunkCache` is the retransmission buffer with a ghost history;
  `SessionResumption` puts it into the session of the web client: chunks are cached, sent over a
  connection that may break anywhere, acknowledged, queued while offline, pruned by what the peer counted,
  transferred to the next connection's cache and sent again. Over any run, nothing is duplicated or
  reordered, and the two ways in which a payload gets lost are counted exactly.
- **Flow-controlled data channel.** The pause/resume state machine as a class over mutable futures, and the
  unbounded FIFO built from chained promises as steps. Low-water events are separate steps, so they may be
  late; what needs them to be prompt says so.
- **Codecs.** UTF-16 to UTF-8 and back on machine words, against the grammar of section 4 of RFC 3629, and
  hexadecimal strings, including what `parseInt` makes of characters that are no digits.
- **Trusted key store.** Token codec, plaintext layout, sealed box, hexadecimal text, stored record, the
  deprecated two-part format and its migration, and the work factor.
- **Push session.** The runner between its suspensions, its backoff, and the predicted total period.
- **Emoji.** The tables built from library data, the capped search, the suggestion strip, the tokenizer.
- **Smaller cores.** Censoring for logs, password scoring, read reports.

Sources that work in place are classes, arrays and loops here, each tied by its contract to a function on
values; what the source promises is then proved about those functions and about all runs of their steps
(`Runs`). JavaScript strings are sequences of 16-bit code units, bytes are 8-bit words, numbers used as
counters are integers. `hide` keeps definitions out of proofs that do not need them.

Random numbers, benchmark results, responses, timers, cryptography, `JSON.parse`, `toLowerCase`, the emoji
matcher, the image lookup and the library's skin tone rendering are parameters.

Where the code does less than one would expect, the exact condition is proved:

- A chunk queued while disconnected is only kept if the push service is available; without it the chunk is
  numbered but never sent (`NothingLost`, `QueuedWithoutPushIsDropped`).
- What was sent in a handshake with nothing to resume is abandoned when that handshake breaks, as are chunks sent
  after that, before the next connection, and what is still to come when a session is discarded or not resumed
  (`OnlyGivingUpAbandons`, `AbandoningHappens`).
- Keys are stored, and a deprecated record is migrated, only if scrypt takes the work factor the benchmark led to
  (`KeyRoundTrip`, `MigrationKeepsKeys`).
- `transfer` keeps what it appended when the sequence numbers run out half-way (`ChunkCache.Transfer`).
- A `bufferedamountlow` event handled after the buffer has filled up again resumes a full channel; over any run
  nothing else does (`OnlyLateEventsBreakTheBound`, `BufferStaysBounded`).
- Everything written to the unbounded channel can be sent, exactly when the low water mark is below the high
  one; the constructor accepts any two (`NoLostWakeUp`, `OneMessageGetsStuck`).
- The work factor is said to be rounded down to the nearest power of two; that holds between 65536 and
  2^31 only, and from 2^31 on the shift wraps around (`WorkFactorRoundsDown`).
- Only the first push timeout is not capped (`TimeoutIsCappedPower`).
- Ill-formed push tokens come back with U+FFFD for lone surrogates (`TokenRoundTrip`), and tokens stored
  without a type prefix are misread if they are empty, ill-formed, start with a byte order mark or have a colon
  as their second character (`LegacyToken`).
- Cancelling all timers while a read report is due leaves the controller waiting for it forever
  (`EveryMessageIsCovered`, `NothingReportedAgain`).
- A password that is one underscore scores below the empty one, and a low surrogate that completes a pair may
  lower score and strength (`LongerIsNotWeaker`, `PairWeakens`). Reordering a password keeps its score as long as no
  lone surrogates become a pair (`ScoreIgnoresOrder`, `OrderMattersForLoneSurrogates`).

## Model

| member | source | states |
|---|---|---|
| SequenceNumbers.SequenceNumber.Validate | src/protocol/sequence_number.ts:37-44 | a number passes exactly when it lies within the bounds; which bound it breaks |
| SequenceNumbers.SequenceNumber.Set | src/protocol/sequence_number.ts:56-59 | the value changes exactly when the new one is valid |
| SequenceNumbers.SequenceNumber.Increment | src/protocol/sequence_number.ts:65-72 | returns the number before; never wraps, and a failing call changes nothing |
| ChunkCaches.AppendAllExtendsHistory | src/protocol/cache.ts:61-69 | appending many extends the history by exactly as many chunks as can still be numbered, and fails exactly when that is not all |
| ChunkCaches.PruneKeepsWhatFollows | src/protocol/cache.ts:95-108 | an acknowledgement is accepted exactly between the last accepted one and the next number; the cache is then the suffix of the history from there |
| ChunkCaches.SumLengthsIsTotal | src/protocol/cache.ts:107-109 | the size recomputed after pruning is the one appending keeps up: the bytes of all chunks that are not null |
| ChunkCaches.ChunkCache.constructor | src/protocol/cache.ts:30-32 | a new cache is empty and numbered from the given sequence number |
| ChunkCaches.ChunkCache.Chunks | src/protocol/cache.ts:53-55 | the non-null chunks of the history since the last acknowledgement, in order |
| ChunkCaches.ChunkCache.Append | src/protocol/cache.ts:74-82 | extends the history by one, or changes nothing when the numbers are used up |
| ChunkCaches.ChunkCache.Transfer | src/protocol/cache.ts:61-69 | appends the non-null chunks in order; which of them stay when the numbers run out |
| ChunkCaches.ChunkCache.Prune | src/protocol/cache.ts:89-114 | which numbers are refused and why, without any change; otherwise the counts add up to the old length and the cache is the history's suffix |
| SessionResumption.StepKeepsInv | src/services/webclient.ts:4273-4340 | every event of a session keeps: caches hold what their connection numbered, the wire carries what the peer has not counted, accepted plus still to come is what was kept |
| SessionResumption.NothingLost | src/services/webclient.ts:739-806 | over every run, through any number of sessions, what peers accepted followed by what is still to come is what was kept, in order, and a subsequence of what was requested; it is all of that exactly when nothing was queued without a push service and nothing was abandoned |
| SessionResumption.OnlyGivingUpAbandons | src/services/webclient.ts:488-509 | over every run, what one event does to all that was or will be delivered: not resuming, discarding and breaking a first handshake cut it down to what was accepted; a requested payload extends it, is dropped without a push service, or is abandoned with no connection to resume; nothing else changes it |
| SessionResumption.NoBadSequenceNumber | src/services/webclient.ts:2541-2552 | over every run, neither an acknowledgement nor a resumption of an honest peer is ever refused |
| SessionResumption.CachePrune | src/services/webclient.ts:770-782 | pruning by a count the peer reached succeeds and leaves exactly what it lacks |
| SessionResumption.ResumeKeepsInv | src/services/webclient.ts:770-806 | resuming fails exactly when the numbers run out, and otherwise puts exactly what the peer lacks on the wire |
| SessionResumption.ResumptionCompletes | src/services/webclient.ts:787-806 | however many connections broke before, one that is resumed and lasts delivers every kept payload once and in order |
| SessionResumption.DisconnectKeepsInv | src/services/webclient.ts:1414-1424 | breaking an established connection keeps everything it sent to come; breaking a handshake keeps what waits to be resumed, and without that counts what was sent in it as abandoned |
| SessionResumption.QueuedWithoutPushIsDropped | src/services/webclient.ts:4278-4313 | a payload queued while the push service is unavailable uses up a number and changes nothing that is kept or to come |
| SessionResumption.DroppingHappens | src/services/webclient.ts:4278-4313 | a run in which a requested payload is dropped |
| SessionResumption.AbandoningHappens | src/services/webclient.ts:1414-1424 | a run in which a payload sent during a first handshake is abandoned although nothing was dropped |
| SessionResumption.ConnectedSendsAtOnce | src/services/webclient.ts:4295-4316 | in every run, while connected every chunk, whether to be retransmitted or not, goes on the wire behind the others, is numbered next and cached, as null if it is not to be retransmitted; it fails exactly when the numbers are used up |
| SessionResumption.InfoIsSentAtOnce | src/services/webclient.ts:1505-1517 | so does information about the connection during a handshake, even while a previous connection waits |
| SessionResumption.OtherwiseQueues | src/services/webclient.ts:4278-4307 | while a previous connection waits, nothing goes on the wire, and the chunk is numbered and cached behind those of that connection |
| SessionResumption.NowhereToSend | src/services/webclient.ts:4295-4316 | with no connection to resume a chunk only uses up a number |
| SessionResumption.AcknowledgementPrunes | src/services/webclient.ts:2541-2552 | an acknowledgement takes exactly what it covers out of the cache |
| SessionResumption.CacheEmpties | src/services/webclient.ts:2541-2552 | in every run, delivering what is on the wire, acknowledging and receiving the acknowledgements is possible and leaves nothing to retransmit |
| SessionResumption.ChunksArrive | src/services/webclient.ts:4273-4340 | whatever chunks are sent over a new connection that lasts arrive, all of them and in order |
| SessionResumption.BreakQueueResume | src/services/webclient.ts:739-806 | a connection broken at any moment of any run, payloads queued meanwhile, and a connection that resumes it are possible and deliver what was kept before and what was queued |
| SessionResumption.FailureIsFinal | src/services/webclient.ts:1386-1391 | a failed session keeps no cache to resume from, and nothing happens in it any more |
| Futures.Future.Settle | public/libs/future.js:66-77 | settling makes the future done; the first settlement is the outcome |
| DataChannels.FlowControlledDataChannel.constructor | src/helpers/data_channel.ts:49-72 | starts ready, with the low water mark set on the channel |
| DataChannels.FlowControlledDataChannel.OnBufferedAmountLow | src/helpers/data_channel.ts:66-71 | resolves the current future and touches nothing else |
| UnboundedChannels.ReachableOrder | src/helpers/data_channel.ts:90-109 | in every reachable state, whatever the marks, the future a running link awaits is the current one, so none is replaced between the await and the send; until a send fails, sent plus queued is what was written |
| DataChannels.FlowControlledDataChannel.Write | src/helpers/data_channel.ts:90-109 | throws without change when paused or when sending throws; else sends, and replaces the future exactly at the high water mark |
| DataChannels.WritingIsAllOrNothing | src/helpers/data_channel.ts:90-109 | when writing is refused, what it sends, and that it pauses exactly at the high water mark |
| UnboundedChannels.StepKeepsInv | src/helpers/data_channel.ts:120-139 | with the low mark below the high one every step keeps all of this, and a paused channel has a low-water event to come |
| UnboundedChannels.SentInOrder | src/helpers/data_channel.ts:129-139 | over every run, whatever the marks, messages are sent in the order written with none skipped, and none ever fails because the channel is paused |
| UnboundedChannels.PausedLinksCount | src/helpers/data_channel.ts:90-94 | a link that met a paused channel would be counted and stop the chain, so that none being counted means none did |
| UnboundedChannels.NothingAfterFailure | src/helpers/data_channel.ts:129-139 | after a failed send nothing is sent any more |
| UnboundedChannels.FailedSendIsFinal | src/helpers/data_channel.ts:129-139 | over every run, what was sent before a failed send is all that is ever sent |
| UnboundedChannels.EverythingGetsSent | src/helpers/data_channel.ts:61-71 | with the low mark below the high one, from every reachable state without a failure, draining and handling low-water events sends everything written |
| UnboundedChannels.NoLostWakeUp | src/helpers/data_channel.ts:61-71 | for any two marks: after every run without a failed send everything written can still be sent, exactly when the low mark is below the high one |
| UnboundedChannels.QuietMeansSent | src/helpers/data_channel.ts:61-71 | for any two marks: every run without a failed send that ends drained and with nothing left to do has sent everything, exactly when the low mark is below the high one |
| UnboundedChannels.OneMessageGetsStuck | src/helpers/data_channel.ts:96-108 | a first message that reaches the high mark without passing the low one pauses the channel, and nothing is sent after it in any run |
| UnboundedChannels.BufferStaysBounded | src/helpers/data_channel.ts:96-108 | over every run and for any marks: a ready channel is always below the high mark exactly when that is not 0 and no low-water event is handled at a full buffer, and the buffer then stays below the high mark plus the largest message; with the low mark below the high one prompt events are enough, and paused means above the low mark or about to resume |
| UnboundedChannels.OnlyLateEventsBreakTheBound | src/helpers/data_channel.ts:66-71 | the one step after which a ready channel is not below the high mark is a low-water event handled at a full buffer |
| UnboundedChannels.LateEventBreaksTheBound | src/helpers/data_channel.ts:66-71 | a run in which that happens |
| Utf8.StringToUtf8a | src/helpers.ts:118-143 | the loop computes the encoding of the whole string |
| Utf8.Utf8aToString | src/helpers.ts:167-191 | the loop computes the decoding of any bytes, truncated sequences included |
| Utf8.DecodeEncode | src/helpers.ts:118-191 | decoding undoes encoding for every string of code units, lone and misordered surrogates included |
| Utf8.EncodeIsInjective | src/helpers.ts:118-143 | no two strings have the same encoding |
| Utf8.EncodeMeetsGrammar | src/helpers.ts:118-143 | the output is UTF-8 by RFC 3629 exactly when the input is well-formed UTF-16 |
| Utf8.UnitHasItsValue | src/helpers.ts:118-143 | the bytes of a code unit stand for its number by the table of section 3 of RFC 3629 |
| Utf8.PairHasItsValue | src/helpers.ts:127-141 | the bytes of a surrogate pair stand for the number of the pair |
| Utf8.TruncatedReadsZeros | src/helpers.ts:167-191 | bytes missing at the end are read as zeros |
| Utf8.EncodeDecode | src/helpers.ts:167-191 | valid UTF-8 decodes to well-formed UTF-16 and encodes to the same bytes again |
| Utf8.EncodeDistributes | src/helpers.ts:127-141 | encoding distributes over concatenation exactly when the cut does not split a surrogate pair |
| Hex.U8aToHex | src/helpers.ts:30-36 | two lower-case digits for every byte, in order |
| Hex.HexToU8a | src/helpers.ts:46-63 | the overshooting loop fills the array with the byte of every two characters of the padded string |
| Hex.HexRoundTrip | src/helpers.ts:30-63 | bytes come back from their hexadecimal string |
| Hex.StringRoundTrip | src/helpers.ts:30-63 | a string comes back, padded and in lower case, exactly when it has hexadecimal digits only |
| Hex.ValuesAreStandard | src/helpers.ts:46-63 | capitals are the same digits, and a digit stands for its place among them |
| Hex.DigitsAreStandard | src/helpers.ts:30-36 | which characters the digits are |
| Hex.HexByteIs | src/helpers.ts:30-36 | the high digit comes first |
| Hex.ParseTwoCharacters | src/helpers.ts:46-63 | what any two characters are parsed to: white space, signs, `0x` and characters that are no digits included |
| Hex.OddIsPadded | src/helpers.ts:46-52 | an odd number of characters gets a zero in front |
| WorkFactors.WorkFactorIsSound | src/services/keystore.ts:119-127 | whatever the benchmark said, the factor is a power of two between the minimum and 2^30 |
| WorkFactors.WorkFactorRoundsDown | src/services/keystore.ts:119-123 | it is the extrapolated factor rounded down exactly when that lies between 65536 and 2^31 |
| WorkFactors.WorkFactorOtherwise | src/services/keystore.ts:119-123 | otherwise, and without a finite number, it is the minimum |
| PushTokens.TokenRoundTrip | src/services/keystore.ts:180-233 | type and token come back for all types; the token unchanged exactly when it is well-formed UTF-16 |
| PushTokens.PrefixesOfTypes | src/services/keystore.ts:181-231 | the letters g, a, h and 3 stand for the types, any other letter before a colon for no token |
| PushTokens.LegacyToken | src/services/keystore.ts:227-231 | any text stored without a prefix is read as an FCM token exactly when it is not empty, well-formed, without a byte order mark in front, and its second character is no colon |
| PushTokens.ScrubIsWellFormed | src/services/keystore.ts:199 | what the text encoder puts in place of ill-formed text is well-formed, and leaves exactly well-formed text alone |
| PushTokens.ScrubReplacesLone | src/services/keystore.ts:199 | exactly the lone surrogates are replaced, each by U+FFFD |
| StoredText.RecordHasManyParts | src/services/keystore.ts:150-157 | a record in the current format never splits into two parts at colons |
| StoredText.StringifyIsInjective | src/services/keystore.ts:150-157 | different records of hexadecimal texts and numbers have different texts, although nothing is escaped |
| StoredText.StringifyIsJson | src/services/keystore.ts:150-157 | the text of a record, member by member |
| StoredText.DecimalIsNumber | src/services/keystore.ts:153-155 | numbers are written in decimal without a leading zero |
| StoredText.SplitTwo | src/services/keystore.ts:264-265 | two parts without colons, joined by one, come apart again |
| KeyStore.TrustedKeyStoreService.BuildPlaintext | src/services/keystore.ts:144-147 | the byte array filled in place is the layout, or a range error where a part does not fit |
| KeyStore.PlaintextLayout | src/services/keystore.ts:144-147 | the token is at offset 64, and the keys are at 0 and 32 exactly when both have 32 bytes |
| KeyStore.TrustedKeyStoreService.StoreTrustedKey | src/services/keystore.ts:100-161 | replaces the stored record and sets the auto flag if asked, or throws without a change |
| KeyStore.TrustedKeyStoreService.MigrateDeprecatedStorageFormat | src/services/keystore.ts:235-251 | stores anew what the deprecated record holds, or throws without a change |
| KeyStore.TrustedKeyStoreService.RetrieveTrustedKey | src/services/keystore.ts:257-348 | the storage afterwards and the result, over all branches |
| KeyStore.TrustedKeyStoreService.ClearTrustedKey | src/services/keystore.ts:353-361 | the record, the auto flag and the session password are gone, and nothing else is |
| InMemorySessions.InMemorySession.SetPassword | src/helpers/in_memory_session.ts:67-80 | a password set is the one found again, in whichever store is used, and none without a store |
| KeyStore.LawfulLibraryExists | src/services/keystore.ts:149-157 | the laws assumed of the libraries hold of some library, so what follows from them is not void; its parser undoes `JSON.stringify` |
| KeyStore.ReadSealed | src/services/keystore.ts:301-347 | a sealed record whose work factor scrypt takes passes every validity check, and is read as what its box opens to with the given password |
| KeyStore.StoreThenRetrieve | src/services/keystore.ts:138-157 | after storing, retrieval changes nothing and returns the token as the encoder left it; the keys unchanged exactly when both have 32 bytes; `hasTrustedKey` finds the record, and the auto flag is kept or set |
| KeyStore.KeyRoundTrip | src/services/keystore.ts:138-157 | 32-byte keys are stored exactly when scrypt takes the work factor, and then everything comes back exactly when the token is absent or well-formed with its type |
| KeyStore.OtherPassword | src/services/keystore.ts:330-347 | with another password nothing is returned and the record stays, unless the box opens under that password too |
| KeyStore.WhatRetrievalReturns | src/services/keystore.ts:283-347 | for any stored text that is no deprecated record: when nothing is returned (no valid record, or a box that does not open), when an error is thrown, and that the text stays |
| KeyStore.NothingStored | src/services/keystore.ts:258-261 | without a record nothing is returned, and `hasTrustedKey` finds none |
| KeyStore.ShortTextIsNoKey | src/services/keystore.ts:166-169 | a text of at most 96 characters or without a colon does not count as a trusted key |
| KeyStore.DeprecatedOtherPassword | src/services/keystore.ts:235-276 | with the wrong password or a nonce of the wrong size a deprecated record gives nothing and stays |
| KeyStore.MigrationKeepsKeys | src/services/keystore.ts:235-276 | reading a deprecated record returns keys and token from their offsets and leaves a current record, from which every later read returns the same without migrating; an undecodable token or a refused work factor returns nothing and leaves the record alone; `hasTrustedKey` finds the record before and after |
| PushSessions.ExpectedPeriodMaxMs | src/services/push.ts:79-93 | the loop computes the sum of the timeouts of all tries, infinity without a limit |
| PushSessions.TimeoutIsCappedPower | src/services/push.ts:86-91 | the i-th timeout is min(init * 2^i, max), but for the first one when it exceeds the maximum |
| PushSessions.PushesFollowSchedule | src/services/push.ts:189-205 | over every run: at most the maximum number of pushes, the i-th with the i-th or last TTL, with a collapse key exactly when that is not 0 |
| PushSessions.TimeoutTakesExpectedPeriod | src/services/push.ts:238-249 | a session that times out made all its tries and slept exactly the predicted period |
| PushSessions.FirstSettlementCounts | src/services/push.ts:131-250 | over every run, the outcome is that of its first settling event (done, unusable push token, client error, or the end of the sleep after the last try), and there is none without one |
| PushSessions.SettledOnce | src/services/push.ts:143-151 | after the first settlement neither the outcome nor the pushes change |
| PushSessions.StartingPushes | src/services/push.ts:131-205 | for every configuration, a started session sends its first push, with the first TTL |
| PushSessions.PushesUntilTimeout | src/services/push.ts:189-250 | whatever the responses, as long as none is a client error: every one is followed by another push until the tries are used up, the last one by the timeout |
| PushSessions.SettledRunnerEnds | src/services/push.ts:189-190 | a settled runner ends where it would have pushed next |
| PushSessions.RunnerTerminates | src/services/push.ts:189-250 | with a limit on the tries the runner is resumed only a bounded number of times |
| PushSessions.RunnerIsResumedSoOften | src/services/push.ts:189-250 | in every run it is resumed at most twice for every try and once before |
| PushSessions.PushSession.Create | src/services/push.ts:103-117 | which configurations are refused |
| PushSessions.PushSession.Start | src/services/push.ts:131-141 | starts the runner at the first call, and only then |
| PushSessions.PushSession.Done | src/services/push.ts:148-151 | resolves unless already settled |
| PushSessions.PushSession.BeginRun | src/services/push.ts:131-186 | the first push, or rejection when the request data cannot be made |
| PushSessions.PushSession.Loop | src/services/push.ts:189-218 | one round from the loop's condition to the request |
| PushSessions.PushSession.AfterFetch | src/services/push.ts:221-236 | client errors settle, everything else retries |
| PushSessions.PushSession.AfterSleep | src/services/push.ts:238-249 | backoff, then the timeout after the last try |
| OrderedMaps.OrderedMap.Set | src/helpers/emoji.ts:60-81 | setting a key again keeps its place |
| OrderedMaps.OrderedMap.Delete | src/helpers/emoji.ts:74 | the other keys keep their order |
| EmojiIndex.CollectNames | src/helpers/emoji.ts:61-68 | every name of the data with its last meaning, in the order of first occurrence |
| EmojiIndex.BuildShortnames | src/helpers/emoji.ts:59-82 | the same name-to-emoji map as the library's data; the keys are the listed names in list order, then the others in library order |
| EmojiIndex.PairsAt | src/helpers/emoji.ts:61-68 | the names are taken entry by entry, each with its names in order |
| EmojiIndex.MeansTheLast | src/helpers/emoji.ts:61-68 | a name given several times means what it was given last |
| EmojiIndex.PickerOrderHas | src/helpers/emoji.ts:59-82 | the keys are exactly the names of the library, each once |
| EmojiIndex.PickerOrderIsOrdered | src/helpers/emoji.ts:69-81 | listed names stand before all others, in the order of the list; the others are in the order of the library |
| EmojiLookup.BuildTables | src/helpers/emoji.ts:97-120 | both tables keep the first entry for each key |
| EmojiLookup.NameOfEmoji | src/helpers/emoji.ts:263-265 | an emoji has a name exactly when the library names it, and that name leads back to it |
| EmojiLookup.NamesAreInjective | src/helpers/emoji.ts:97-105 | different emoji have different names |
| EmojiLookup.NameResolves | src/helpers/emoji.ts:208-213 | a lower-case name found for an emoji resolves to that emoji |
| EmojiLookup.KnownNameResolves | src/helpers/emoji.ts:208-213 | every name resolves to its emoji, aliases too and in any case |
| EmojiLookup.ToneResolves | src/helpers/emoji.ts:215-221 | a name with one of five skin tone suffixes is rendered with the tone the library counts one higher |
| EmojiLookup.OnlyTonesAreToned | src/helpers/emoji.ts:217 | nothing else is read as a skin tone |
| EmojiLookup.OtherSpellingsResolve | src/helpers/emoji.ts:223-224 | a spelling that is no name resolves to the first name with the same search key, and to nothing exactly when there is none |
| EmojiLookup.SeparatorsAreIgnored | src/helpers/emoji.ts:84-91 | a hyphen, underscore or white space anywhere in a name makes no difference to its search key, any other character does |
| EmojiSearch.ShortnamesStartingWith | src/helpers/emoji.ts:239-257 | the early exit and the capped buffers give the first matches of the uncapped search |
| EmojiSearch.MatchesAreDistinct | src/helpers/emoji.ts:245-254 | no name is found twice |
| EmojiSearch.MatchesAreComplete | src/helpers/emoji.ts:245-254 | exactly the names with the prefix, or whose search key has the prefix's, are found |
| EmojiSearch.MatchesInOrder | src/helpers/emoji.ts:239-257 | exact matches stand before loose ones, each kind in index order |
| EmojiText.ParseEmoji | src/helpers/emoji.ts:164-199 | the loop ends and cuts the text at the matches |
| EmojiText.FileNameFollowsSlash | src/helpers/emoji.ts:135-137 | the file name is what follows a slash, or the whole path; it has no slash |
| EmojiText.CodepointIsName | src/helpers/emoji.ts:135-137 | the code point is the name of the image file without directory and suffix |
| EmojiText.ParsePartitions | src/helpers/emoji.ts:164-199 | the tokens joined are the text, and none is empty |
| EmojiText.ImagesAreMatches | src/helpers/emoji.ts:164-199 | the images among the tokens are those of the matches that the image set has, in order |
| EmojiSuggesting.WordStartIsMaximal | src/helpers/emoji_suggestions.ts:125-128 | the scan back stops at the longest stretch without white space |
| EmojiSuggesting.WordEndIsMaximal | src/helpers/emoji_suggestions.ts:129-132 | so does the scan ahead |
| EmojiSuggesting.Suggest | src/helpers/emoji_suggestions.ts:159-164 | searching for twelve more than there are recent names gives the best twelve as if nothing were capped |
| EmojiSuggesting.OfferedHas | src/helpers/emoji_suggestions.ts:159-164 | only recently used emoji and matches are offered, twelve at most, and all of them unless there are more |
| EmojiSuggesting.OfferedInOrder | src/helpers/emoji_suggestions.ts:159-164 | recently used emoji stand first, in their order; then exact matches before loose ones, each kind in index order |
| EmojiSuggesting.OfferedIsDistinct | src/helpers/emoji_suggestions.ts:159-164 | nothing is offered twice when the recently used emoji are distinct |
| EmojiSuggesting.MovedToFrontIsDistinct | src/services/settings.ts:170-174 | picking an emoji moves it to the front and keeps the recently used ones distinct |
| EmojiSuggesting.MovedToFrontKeeps | src/services/settings.ts:170-174 | the others keep their order, as many as 36 places allow |
| EmojiSuggesting.EmojiSuggestions.FindWord | src/helpers/emoji_suggestions.ts:119-140 | the shortcode at the caret, from both scans |
| EmojiSuggesting.WordAtCaretIs | src/helpers/emoji_suggestions.ts:119-140 | the shortcode is what follows the colon of the word around the caret, unless a second colon closes it; where the word starts and ends |
| EmojiSuggesting.FinishedIs | src/helpers/emoji_suggestions.ts:175-191 | a shortcode closed right before the caret stands for what the text between its colons resolves to |
| EmojiSuggesting.EmojiSuggestions.CompleteShortcode | src/helpers/emoji_suggestions.ts:175-195 | replaces exactly a finished and known shortcode before the caret, and otherwise changes nothing |
| EmojiSuggesting.EmojiSuggestions.Update | src/helpers/emoji_suggestions.ts:146-172 | a finished shortcode is replaced and the caret put behind it, otherwise the input stays; the strip then shows exactly when there is something to offer for the word at the caret, and shows that |
| EmojiSuggesting.EmojiSuggestions.Insert | src/helpers/emoji_suggestions.ts:197-207 | replaces the word and nothing else, and remembers the emoji |
| EmojiSuggesting.EmojiSuggestions.HandleKeyDown | src/helpers/emoji_suggestions.ts:86-116 | keys are taken exactly while the strip shows; arrows move the index within range; enter and tab replace the word, put the caret behind it and remember the emoji |
| Confidential.CensorRevealsShapeOnly | src/helpers/confidential.ts:34-78 | values of one shape are logged alike, also through wrappers |
| Confidential.MessageRevealsShapeOnly | src/helpers/confidential.ts:148-160 | two messages that differ only in the contents of `args` and `data`, but not in their shape, are logged alike |
| Confidential.MessageHidesArgsAndData | src/helpers/confidential.ts:148-160 | arguments and data of a message are censored, everything else is left as it is |
| Confidential.CensorRevealsShape | src/helpers/confidential.ts:34-78 | for values without wrappers, what is logged is the same exactly when the shape is: lengths, keys and nesting survive |
| Confidential.CensorTellsApart | src/helpers/confidential.ts:34-160 | for all values, two are logged the same exactly when they are alike once wrappers are taken off: wrapped objects and arrays like plain ones, a wire message like an object as far as its fields are censored |
| PasswordStrength.ScorePassword | src/helpers/password_strength.ts:28-73 | the loop computes 5 times the harmonic number of every distinct character's count, plus the bonus, truncated |
| PasswordStrength.CharactersAppend | src/helpers/password_strength.ts:38-41 | iterating over a longer string yields one more character, or takes the last one into a pair |
| PasswordStrength.CharactersOfConcat | src/helpers/password_strength.ts:38-41 | characters put one after the other are iterated over again exactly when no two of them run together |
| PasswordStrength.ScoreIgnoresOrder | src/helpers/password_strength.ts:36-41 | reordering the characters of any password keeps the score as long as no lone high surrogate gets before a lone low one, and keeps the characters exactly then |
| PasswordStrength.OrderMattersForLoneSurrogates | src/helpers/password_strength.ts:36-41 | two lone surrogates score 10, and 5 in the other order |
| PasswordStrength.DistinctCharacters | src/helpers/password_strength.ts:36-68 | without repetitions the score is five a character and ten a category but one, and when that is strong or bad |
| PasswordStrength.CategoriesAreClasses | src/helpers/password_strength.ts:44-52 | every class of characters that occurs counts once, but for the underscore |
| PasswordStrength.StrengthCountsThresholds | src/helpers/password_strength.ts:58-68 | the strength is how many of the three thresholds the score has passed; the empty password scores 0 |
| PasswordStrength.TwoUnderscores | src/helpers/password_strength.ts:55-56 | negative points are truncated towards zero |
| PasswordStrength.LongerIsNotWeaker | src/helpers/password_strength.ts:28-73 | for every password and code unit, exactly when appending lowers the score (from the empty password to an underscore, or by completing a pair that is worth less than the high surrogate was, by more than truncation drops) and exactly when it lowers the strength |
| PasswordStrength.PairWeakens | src/helpers/password_strength.ts:28-73 | a weak password that becomes bad by one more code unit |
| ReadReports.ConversationController.MsgRead | src/partials/messenger.ts:1584-1614 | which messages are remembered and when a timer is started |
| ReadReports.ConversationController.OnTimer | src/partials/messenger.ts:1609-1612 | reports the last message and clears the flag |
| ReadReports.ConversationController.OnCancelAll | src/services/timeout.ts:85-91 | the timer is gone while the controller still waits for it |
| ReadReports.EveryMessageIsCovered | src/partials/messenger.ts:1584-1614 | over every interleaving: one timer at most, reported sort keys never decrease, only counting messages are reported; all of them are covered by a report sent or to be sent exactly when no running timer is cancelled before the latest message was reported, and nothing newer than the last report is seen after a cancellation |
| ReadReports.OneMessage | src/partials/messenger.ts:1584-1614 | an unread incoming message that is no status is reported by its timer; any other does nothing |
| ReadReports.ReportsTheLatest | src/partials/messenger.ts:1600-1612 | over every run a report names the last message seen among those with the greatest sort key |
| ReadReports.NothingReportedAgain | src/partials/messenger.ts:1605-1614 | after a running timer was cancelled nothing is reported in any run |
| ReadReports.CancellationLosesReports | src/services/webclient.ts:480-487 | a message seen just before all timers are cancelled is never reported, whatever follows |

## Left out

- PasswordStrength.Score: exact arithmetic; the floating-point sum of the program depends on the order of addition in its last bits.
- SessionResumption.Step: the error thrown for a chunk before the first connection, closing a session for other reasons, connection IDs themselves (a resumption is a step of its own, as is finding that the ends do not agree), acknowledgement and push timers, the WebRTC task.
- SessionResumption.NothingLost: the peer counts and acknowledges honestly and the connection delivers in order until it breaks; the peer's own code is not part of this model.
- ChunkCaches.ChunkCache.Prune: sequence numbers are integers; a fractional number from the remote is not modelled.
- UnboundedChannels.Step: promise callbacks are steps; that the event loop eventually runs each of them is not proved.
- KeyStore.Retrieve: quota errors of local storage, fractional numbers in a stored record, and invalid values of the token type.
- KeyStore.KeyRoundTrip: cryptography is uninterpreted, and which costs scrypt takes is a parameter; the laws used are that a sealed box opens and is 16 bytes longer, the lengths of keys and hashes, and that the text of a record of hexadecimal texts and safe integers parses back (`LawfulLibraryExists` shows that they can hold together).
- PushSessions.Step: how the request data is made from a push token (only whether that fails), and a number of tries that is no integer.
- EmojiLookup.ShortnameToUtf8: what the library renders for a name and a skin tone is a parameter.
- EmojiText.ParseEmoji: the regular expression is a parameter that finds non-empty matches in increasing position.
- EmojiSuggesting.EmojiSuggestions: drawing the strip, DOM events and the host's callback; the recently used emoji do not change from elsewhere while the strip shows.
- InMemorySessions.InMemorySession: a value of the desktop app's store that is no text, and looking for the stores again at every call.
- Confidential.Censor: texts in brackets are structured values, as are fields that a wire message leaves unchanged; objects with an own key named `constructor` or `__proto__`, and ICE candidates.
- Views, controllers, dialogs, filters, browser detection, MIME tables, base64 helpers: user interface, library calls or case lists.
