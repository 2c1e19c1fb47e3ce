# CrypTAK: verified models of its stateful cores

This project models the parts of CrypTAK whose correctness depends on long runs, arbitrary
interleavings or arbitrary inputs, and proves what those parts are for. `dafny verify
dfyconfig.toml` checks all of it.

| module | what it models |
|---|---|
| `MelSeparation` | codec2's in-place loop that pushes LSP-mel values apart and restarts its own counter |
| `Search`, `CotFraming`, `CotStreamReader`, `FtsReception` | rebuilding CoT events from a byte stream cut anywhere: the HaLow bridge's reader and the FreeTAKServer patch |
| `CotBuffer`, `Bridge` | the bounded buffer with its memory of sent keys, and the store-and-forward bridge as a step system over all interleavings of its two coroutines |
| `Entities`, `Remarks` | XML and HTML escaping as chains of global replacements, and the six-field remarks line |
| `Titles`, `Dedup` | the incident deduplicator over whole runs |
| `BitPacking` | MSB-first bit packing, unpacking and bit-error injection |
| `BlockFilters` | block FIR filters, the HF delay line and the sample window against an unbounded stream |
| `VectorQuantiser` | the codebook searches and the least-squares gain |
| `Markers` | marker fading, expiry and retirement over whole runs of the refresh timer |
| `RelayPositions` | the relay's re-emission rule and its seeding of fixed positions |
| `RateLimit` | the hourly cap on AI calls |
| `Fountain` | the Luby-transform fountain codec: block encoding, seeds and the peeling decoder |
| `Options`, `Sequences`, `Clocks` | shared notions: optional values, bounded deques, runs in time order |

Code that changes fields or arrays step by step is modelled by classes and methods with
loops, each proved against a specification function or predicate; what the code promises is
then proved about those. Floating-point numbers are exact reals, times are reals or whole
milliseconds supplied by the caller, and sockets are sequences of arbitrary answers.

## Where the code does less than it seems to

- The separation loop does not always leave the first two values apart, because its counter
  is incremented right after it is reset to 1. `MelSeparation.FirstPairApart` gives the exact
  condition on the input; `MelSeparation.FirstPairMayCloseAgain` an example.
- The remarks line does not always have six fields: the sanitiser keeps bars.
  `Remarks.RemarksRoundTrip` gives the exact condition, `Remarks.SummarySpills` a family of
  examples.
- The seed pass truncates its clock to whole seconds, so two seeds of one position can be up
  to a second closer than 80% of the stale time, and a report just older than that can be
  overlooked. `RelayPositions.RepeatsAreApart` and `RelayPositions.AgeBoundedIff` say over
  whole runs exactly when the full threshold and the bound on the age are kept;
  `RelayPositions.SeedsTooClose` and `RelayPositions.ReportTooOld` are runs that do not.
- The AI cap holds per counter window, not per hour. `RateLimit.CapHoldsIff` says exactly
  which runs keep it in every hour and `RateLimit.CallKeepsCap` what would have to be checked
  before a call; `RateLimit.AtMostTwiceTheCap` bounds every run, and
  `RateLimit.TwiceTheCapHappens` reaches that bound for every cap.
- A fountain transfer is not decoded from any K of its blocks. `Fountain.Decode` succeeds
  exactly when no set of source blocks stops the peeling; `Fountain.NeedsAsMany` shows that K
  blocks are needed and `Fountain.AsManyMayFail` that K distinct ones may not do.
- The gain of the gain-shape search minimises the plain error, not the weighted one that the
  search compares. `VectorQuantiser.BestGainSuitsMetricIff` says exactly when it minimises
  both, `VectorQuantiser.JointlyOptimalIff` for which codebooks word and gain together are the
  best there are; `VectorQuantiser.GainIgnoresWeights` is an example in which they are not.
- When the greeting after a reconnect fails, the bridge keeps its writer and does not flush
  (server/halow-bridge/bridge.py:193-206, 310-312). `Bridge.GreetingMayFail` is such a run;
  from then on the buffer waits (`Bridge.BufferWaits`), and exactly a step that loses the
  link brings a flush within reach again (`Bridge.FlushNeedsLoss`). No event is lost by it.

## Model

| member | source | states |
|---|---|---|
| `MelSeparation.SeparateMels` | plugin-build/libcodec2-android/src/codec2/src/c2sim.c:734-741 | terminates for every order and vector, and performs the least plan of pushes that treats pair 1 as the first test does and leaves every later pair more than 25 apart |
| `MelSeparation.AnyOrderIsLeast` | plugin-build/libcodec2-android/src/codec2/src/c2sim.c:734-741 | after the first test, any sequence of pushes at failing pairs is at most as long as the loop's, and one that leaves no pair failing makes exactly the loop's pushes |
| `MelSeparation.PushIsForced` | plugin-build/libcodec2-android/src/codec2/src/c2sim.c:735-740 | a pair that still fails its test has had fewer pushes than in any plan that succeeds |
| `MelSeparation.ArchSettles` | plugin-build/libcodec2-android/src/codec2/src/c2sim.c:735-741 | every vector has a successful plan |
| `MelSeparation.PushesBounded` | plugin-build/libcodec2-android/src/codec2/src/c2sim.c:735-741 | the pushes at pair i number at most the first push plus a multiple, given by the worst gap, of (i-1)*(n-i) |
| `MelSeparation.SumConserved` | plugin-build/libcodec2-android/src/codec2/src/c2sim.c:736-738 | separation keeps the sum of the values |
| `MelSeparation.Spread` | plugin-build/libcodec2-android/src/codec2/src/c2sim.c:734-741 | from index 1 on, values i < j end more than 25*(j-i) apart |
| `MelSeparation.FirstPairApart` | plugin-build/libcodec2-android/src/codec2/src/c2sim.c:735-740 | pair (0,1) ends apart exactly when the weighted deficits of every leading stretch of the input are covered by the first push |
| `MelSeparation.UnchangedIffApart` | plugin-build/libcodec2-android/src/codec2/src/c2sim.c:735-741 | the vector is left alone exactly when all its pairs are apart |
| `MelSeparation.FirstPairMayCloseAgain` | plugin-build/libcodec2-android/src/codec2/src/c2sim.c:739-741 | a vector of four values whose first pair is opened once and then closed again |
| `CotFraming.DrainAppend` | server/halow-bridge/bridge.py:109-125 | parsing can stop anywhere and resume with what was left over |
| `CotFraming.EventBehindAnything` | server/halow-bridge/bridge.py:110-117 | a well-framed event behind any bytes that hold no earlier start or end tag is the next event: what precedes its start tag is skipped |
| `CotFraming.NoEventWithoutStart` | server/halow-bridge/bridge.py:113-118 | bytes up to an end tag that hold no start tag yield no event and leave the rest to be read |
| `CotFraming.FeedIsDrain` | server/halow-bridge/bridge.py:106-125 | however a stream is cut into reads, events and leftover are those of the whole stream |
| `CotFraming.SurvivesIffWellFramed` | server/halow-bridge/bridge.py:226-233 | an event written with a newline is read back exactly if and only if it starts with its start tag and ends with its only end tag |
| `CotFraming.WireRoundTrip` | server/halow-bridge/bridge.py:226-233 | any list of well-framed events written by send is read back exactly |
| `CotFraming.EventsAreWellFramed` | server/halow-bridge/bridge.py:110-117 | everything the reader yields is well framed |
| `CotFraming.RelayIsLossless` | server/halow-bridge/bridge.py:106-125 | reading, sending on and reading again changes no event, taken as bytes |
| `CotFraming.LastCutAgrees` | server/fts-patches/ClientReceptionHandler_patched.py:61-68 | one cut at the last end tag leaves the events and the rest of cutting at each first one |
| `CotFraming.FrameWithTag` | server/fts-patches/ClientReceptionHandler_patched.py:61-68 | the complete part ends with the last end tag of the buffer, and what follows is carried unless it is blank |
| `CotFraming.BlanksDoNotMatter` | server/fts-patches/ClientReceptionHandler_patched.py:67-68 | dropping a blank tail changes no later event |
| `CotFraming.StaysInStep` | server/fts-patches/ClientReceptionHandler_patched.py:119-130 | one read keeps a client's events and carry equal to those of the first-end-tag reader, up to dropped blanks |
| `CotFraming.FramersAgree` | server/fts-patches/ClientReceptionHandler_patched.py:123-130 | over any sequence of reads the patch and the bridge's reader see the same events |
| `CotStreamReader.Reader.ReadEvent` | server/halow-bridge/bridge.py:106-125 | returns the next event of the stream ahead, whatever the cuts and whatever precedes its start tag, and None only when the stream ends without one |
| `CotStreamReader.LiveIsFlatten` | server/halow-bridge/bridge.py:119-125 | the stream ahead is the concatenation of the reads |
| `FtsReception.Handler.PollClient` | server/fts-patches/ClientReceptionHandler_patched.py:104-162 | hands on exactly the events completed by a read, in order and without their newlines, and stores its tail, or reports the client gone and drops its carry; no other carry changes |
| `FtsReception.MessageOf` | server/fts-patches/ClientReceptionHandler_patched.py:192-200 | message i is event i with its newlines gone: it holds none, an event without one is handed on as it is, and at a newline what precedes and what follows are joined |
| `FtsReception.StripAppend` | server/fts-patches/ClientReceptionHandler_patched.py:197 | the newlines of two stretches are removed independently, so only they are lost |
| `FtsReception.StripOneNewline` | server/fts-patches/ClientReceptionHandler_patched.py:197 | of two stretches without a newline and one between them, just that newline is lost |
| `FtsReception.UnfinishedAcceptedIff` | server/fts-patches/ClientReceptionHandler_patched.py:123-127 | bytes that complete no event are refused exactly when there are more of them than the limit |
| `FtsReception.FinishedAcceptedIff` | server/fts-patches/ClientReceptionHandler_patched.py:123-134 | bytes that complete one are refused exactly when what follows the last event is not blank and too long, or the parser refuses them |
| `FtsReception.PollKeepsOrder` | server/fts-patches/ClientReceptionHandler_patched.py:100-143 | the messages of one poll come in the order of the client table |
| `FtsReception.Handler.MonitorForData` | server/fts-patches/ClientReceptionHandler_patched.py:96-168 | a poll is the run of its prune and its clients' polls; after it only listed clients keep a carry, and one it reported gone has none |
| `FtsReception.Handler.MonitorRounds` | server/fts-patches/ClientReceptionHandler_patched.py:96-168 | poll after poll, every client's messages and carry are those of its session |
| `FtsReception.PollTouchesOne` | server/fts-patches/ClientReceptionHandler_patched.py:107-162 | polling a client hands on messages of that client alone and leaves the other carries as they are |
| `FtsReception.Handler.Prune` | server/fts-patches/ClientReceptionHandler_patched.py:102-103 | clients that left the table lose their carry, the others keep theirs |
| `FtsReception.Handler.Disconnect` | server/fts-patches/ClientReceptionHandler_patched.py:192-200 | an empty message forgets the carry of its client alone |
| `FtsReception.EventsAreNotFarewells` | server/fts-patches/ClientReceptionHandler_patched.py:197-200 | no event is mistaken for the empty message |
| `FtsReception.AlwaysInSession` | server/fts-patches/ClientReceptionHandler_patched.py:96-168 | over any sequence of polls, with oversize, refused and failed reads among them, each client's messages since its last farewell, or since it left the table, are the reference events of the bytes it sent since, and its carry is bounded and what the reference has left |
| `FtsReception.MessagesSinceFarewell` | server/fts-patches/ClientReceptionHandler_patched.py:123-143 | for a client that stays in the table, the messages since its last farewell are the events in the bytes it sent since |
| `FtsReception.AllReadsServed` | server/fts-patches/ClientReceptionHandler_patched.py:104-143 | for a client whose reads are never empty, add up to no more than the limit and are parsed, every event of the stream is handed on, in order, however it was cut |
| `CotBuffer.CoTBuffer.Add` | server/halow-bridge/bridge.py:138-140 | the event becomes the newest; what is pushed out and what is kept are together the old buffer and the event, in order |
| `CotBuffer.CoTBuffer.Flush` | server/halow-bridge/bridge.py:142-155 | empties the buffer and returns, in their order, the buffer's events at exactly those indices whose key is not among the sent ones |
| `CotBuffer.UnsentIsPart` | server/halow-bridge/bridge.py:149-155 | a linear search of the sent keys keeps exactly the events with no sent key, in the order of the buffer |
| `CotBuffer.AllUnsent` | server/halow-bridge/bridge.py:149-155 | with no key of the buffer sent, the whole buffer is returned as it is |
| `CotBuffer.RememberKeeps` | server/halow-bridge/bridge.py:163-170 | a key not yet known goes to the end of the list, which gives up its oldest only when full; a known one changes nothing |
| `CotBuffer.CoTBuffer.MarkSent` | server/halow-bridge/bridge.py:157-161 | remembers the key of a sent event; fails only when the capacity is 0 |
| `CotBuffer.CoTBuffer.TrackSent` | server/halow-bridge/bridge.py:163-170 | keeps the set equal to the list of at most twice the capacity, without repeats |
| `CotBuffer.RememberMirrors` | server/halow-bridge/bridge.py:166-170 | discarding from the set the key the full list pushes out keeps both equal |
| `CotBuffer.FlushSplits` | server/halow-bridge/bridge.py:149-155 | flush splits the buffer into kept events and events whose key was sent |
| `Sequences.PushCounts` | server/halow-bridge/bridge.py:134-140 | pushing conserves the elements of queue and overflow |
| `Bridge.StepInv` | server/halow-bridge/bridge.py:306-362 | every step of either coroutine between two awaits keeps conservation, justified drops and the buffer's bounds |
| `Bridge.NothingIsLost` | server/halow-bridge/bridge.py:306-362 | over every interleaving, accepted = delivered + buffered + in flight + evicted + dropped, and each dropped event has the key of a delivered one |
| `Bridge.NothingIsLostBelowCapacity` | server/halow-bridge/bridge.py:133-140 | while no more than the capacity was accepted, nothing is evicted, and every accepted event is delivered, buffered, in flight or dropped as a duplicate |
| `Bridge.FlushReturnsNothingSent` | server/halow-bridge/bridge.py:142-155 | until twice the capacity was delivered, a flush returns no event whose key was delivered before it |
| `Bridge.GreetingMayFail` | server/halow-bridge/bridge.py:193-206 | a reconnect whose greeting fails leaves the bridge connected with events buffered |
| `Bridge.BufferWaits` | server/halow-bridge/bridge.py:310-325 | connected and not at work on a new link, the buffer stays as it is and is not flushed in any run that keeps the link |
| `Bridge.FlushNeedsLoss` | server/halow-bridge/bridge.py:310-312 | a flush comes within reach exactly by a step that loses the link |
| `Bridge.StoreBatchInv` | server/halow-bridge/bridge.py:318-322 | re-buffering the rest of a failed batch loses nothing unaccounted for |
| `Bridge.LiveForwards` | server/halow-bridge/bridge.py:350-358 | an event that arrives while connected can be sent, and is then delivered and its key remembered; if the send fails it ends up as the newest in the buffer and the link is down |
| `Bridge.DownBuffers` | server/halow-bridge/bridge.py:359-360 | an event that arrives while the link is down becomes the newest in the buffer at once |
| `Bridge.BacklogDelivered` | server/halow-bridge/bridge.py:306-324 | after a loss, a reconnect whose sends succeed empties the buffer and delivers its events without a sent key, in the order in which they were buffered |
| `Bridge.BacklogResumes` | server/halow-bridge/bridge.py:319-324 | if send n of a batch fails, the first n were delivered in order and the rest is back in the buffer in order, behind what was buffered meanwhile |
| `Bridge.StoredInOrder` | server/halow-bridge/bridge.py:321-323 | a re-buffered batch goes behind the buffer in its order, and the oldest of both give way |
| `Bridge.ConnectIsRetried` | server/halow-bridge/bridge.py:306-311 | an attempt to connect that fails leaves everything as it was |
| `Bridge.RefreshOnly` | server/halow-bridge/bridge.py:325-326 | while the link is up the reconnect loop only refreshes it |
| `Bridge.LinkLostInRefresh` | server/halow-bridge/bridge.py:215-224 | a refresh that fails drops the link and nothing else |
| `Entities.UnescapeEscHtml` | server/nodered/lib/cot-maps.js:190-198 | unescapeXml undoes escHtml on every string |
| `Entities.UnescapeXmlText` | server/incident-tracker/src/cot/builder.py:83-91 | unescapeXml undoes the XML serialiser's text escaping on every string |
| `Entities.EscHtmlIsInert` | server/nodered/lib/cot-maps.js:408-414 | escaped text holds no markup character and every ampersand in it begins a known entity |
| `Entities.EscapePass` | server/nodered/lib/cot-maps.js:409-413 | one escaping pass escapes one more character, provided the ampersand comes first |
| `Entities.UnescapePass` | server/nodered/lib/cot-maps.js:191-197 | one unescaping pass restores one character, as long as the ampersand is still escaped |
| `Remarks.SplitJoin` | server/nodered/lib/cot-maps.js:233 | splitting the joined line gives the fields back exactly when none holds the separator and none but the last ends in its first two characters |
| `Remarks.JoinSplit` | server/nodered/lib/cot-maps.js:233 | joining the parts of a split text gives it back, and no part holds the separator |
| `Remarks.RemarksRoundTrip` | server/nodered/lib/cot-maps.js:226-249 | six fields joined, serialised and parsed come back unchanged exactly when they are splittable |
| `Remarks.IncidentArrives` | server/incident-tracker/src/cot/builder.py:74-83 | an incident whose fields hold no tag and no bar and keep to their limits is parsed back field by field as it was |
| `Remarks.UntaggedParse` | server/nodered/lib/cot-maps.js:226-249 | remarks that name no source are taken for six fields exactly when they have six parts and the sixth is a date, and are otherwise a comment as a whole |
| `Remarks.FieldLimits` | server/incident-tracker/src/cot/builder.py:74-81 | no field is longer than its limit and none but the time holds a tag |
| `Remarks.BarFreeSplittable` | server/incident-tracker/src/cot/builder.py:68-83 | fields without a bar, empty or padded, are always splittable |
| `Remarks.SummarySpills` | server/incident-tracker/src/cot/builder.py:74-83 | a sanitised summary of two halves around a separator is parsed as summary and location, whatever the other fields |
| `Remarks.SummaryMaySpill` | server/incident-tracker/src/cot/builder.py:14-17 | the sanitiser lets such a summary pass |
| `Remarks.StripLeavesNoTag` | server/incident-tracker/src/cot/builder.py:11-16 | one removal pass leaves no complete tag |
| `Remarks.StripIsIdentityIffNoTag` | server/incident-tracker/src/cot/builder.py:11-16 | text is left alone exactly when it holds no tag |
| `Remarks.PlainTextStays` | server/incident-tracker/src/cot/builder.py:11-16 | text in front of the first < is kept |
| `Remarks.TagGoes` | server/incident-tracker/src/cot/builder.py:11-16 | a tag goes as far as its first > and no further |
| `Remarks.LoneBracketStays` | server/incident-tracker/src/cot/builder.py:11-16 | a < that begins no tag is kept, and what follows is treated as if it were not there |
| `Remarks.SanitizeLeavesNoTag` | server/incident-tracker/src/cot/builder.py:14-17 | nor does truncation complete one; the length is bounded |
| `Titles.NonBlankTitleHasWords` | server/incident-tracker/src/dedup.py:11-24 | a non-blank title has words, and similarity 1 with itself |
| `Titles.JaccardSymmetric` | server/incident-tracker/src/dedup.py:19-24 | similarity is symmetric |
| `Titles.JaccardMeasures` | server/incident-tracker/src/dedup.py:19-24 | similarity is the share of the common words in all words of both: between 0 and 1, 0 exactly without a common word, 1 exactly for equal nonempty sets |
| `Titles.WordsSplit` | server/incident-tracker/src/dedup.py:15-16 | a space anywhere separates the words on both sides |
| `Titles.OneWord` | server/incident-tracker/src/dedup.py:15-16 | a stretch without a space is one word |
| `Titles.NormalizeIs` | server/incident-tracker/src/dedup.py:11-12 | normalising takes off the space at both ends, keeps everything between and lowers it |
| `Dedup.Deduplicator.Prune` | server/incident-tracker/src/dedup.py:42-48 | forgets exactly what is not younger than the window |
| `Dedup.Deduplicator.IsDuplicate` | server/incident-tracker/src/dedup.py:50-72 | verdict and new memory are those of the two-stage rule |
| `Dedup.Deduplicator.Filter` | server/incident-tracker/src/dedup.py:74-86 | prunes, then keeps the incidents judged new, in order |
| `Dedup.NoDuplicatesInWindow` | server/incident-tracker/src/dedup.py:42-86 | in every run, emissions of one source id and emissions with similar titles lie a window apart, and the titles held are pairwise dissimilar |
| `Dedup.SameTitleApart` | server/incident-tracker/src/dedup.py:60-72 | with a threshold of at most 1, one title is not let through twice in a window |
| `Dedup.OnlyDuplicatesDropped` | server/incident-tracker/src/dedup.py:54-69 | what is dropped has a source id heard, or a title similar to one let through, less than a window before the last prune or since |
| `Dedup.IdHeardAgain` | server/incident-tracker/src/dedup.py:54-58 | less than a window after a source id was first recorded, and whatever came between, every incident with that id is a duplicate, even if the first was dropped for its title; a repeat refreshes nothing |
| `Dedup.FilterIsRun` | server/incident-tracker/src/dedup.py:74-86 | a call of filter is a run of these steps, with its result as what was let through, in order |
| `BitPacking.Unpack` | plugin-build/libcodec2-android/src/codec2/src/c2enc.c:143-152 | element i is bit i, most significant first, and its soft decision |
| `BitPacking.MostSignificantFirst` | plugin-build/libcodec2-android/src/codec2/src/c2enc.c:143-152 | bit i of a frame is the one that a mask of the uppermost bit, shifted down by i mod 8, finds in byte i / 8 |
| `BitPacking.PackChars` | plugin-build/libcodec2-android/src/codec2/src/c2dec.c:323-332 | shifts every value in at its bit of cleared bytes |
| `BitPacking.PackSoft` | plugin-build/libcodec2-android/src/codec2/src/c2dec.c:307-316 | the same with the signs of the soft decisions |
| `BitPacking.InjectErrors` | plugin-build/libcodec2-android/src/codec2/src/c2dec.c:240-251 | inverts exactly the hit bits of the range, counts them, and says whether one lay outside the frame, for every last bit the assertion lets through |
| `BitPacking.HitsAreDifferences` | plugin-build/libcodec2-android/src/codec2/src/c2dec.c:240-251 | the count is the number of places where the frames differ |
| `BitPacking.PackedBit` | plugin-build/libcodec2-android/src/codec2/src/c2dec.c:323-332 | for 0/1 values, bit i of the packed frame is value i and the padding is 0 |
| `BitPacking.UnpackPacked` | plugin-build/libcodec2-android/src/codec2/src/c2enc.c:143-152 | packing and unpacking is the identity exactly on vectors of 0 and 1 |
| `BitPacking.PackUnpacked` | plugin-build/libcodec2-android/src/codec2/src/c2dec.c:323-332 | unpacking and packing keeps the bits and clears the padding |
| `BitPacking.SoftKeepsBits` | plugin-build/libcodec2-android/src/codec2/src/c2enc.c:145 | a soft decision is 1 for 0 and -1 for 1, and its sign carries the bit |
| `BlockFilters.ShiftDown` | plugin-build/libcodec2-android/src/codec2/src/cohpsk_ch.c:263-264 | the overlapping in-place shift loses nothing |
| `BlockFilters.Fir.Process` | plugin-build/libcodec2-android/src/codec2/src/cohpsk_ch.c:227-264 | output i of a block is the convolution of the whole stream so far |
| `BlockFilters.Fir.ProcessAll` | plugin-build/libcodec2-android/src/codec2/src/cohpsk_ch.c:325-341 | any number of blocks gives the convolution of the whole stream |
| `BlockFilters.TapsAreConvolution` | plugin-build/libcodec2-android/src/codec2/src/cohpsk_ch.c:253-256 | the taps read from the buffer are those of the unbounded stream |
| `BlockFilters.ImpulseResponse` | plugin-build/libcodec2-android/src/codec2/src/cohpsk_ch.c:253-256 | of a single nonzero sample the filter makes its coefficients, one after the other, from that sample on |
| `BlockFilters.ConvolveIsLinear` | plugin-build/libcodec2-android/src/codec2/src/cohpsk_ch.c:253-256 | the filter is linear, so its impulse response settles it for every stream |
| `BlockFilters.Window.Process` | plugin-build/libcodec2-android/src/codec2/src/cohpsk_ch.c:278-281 | the buffer holds the last samples of the stream, and its first places the stream delayed |
| `BlockFilters.TailMoves` | plugin-build/libcodec2-android/src/codec2/src/c2sim.c:525-530 | shifting and refilling a window moves it along the stream |
| `VectorQuantiser.BestGainIsOptimal` | plugin-build/libcodec2-android/src/codec2/src/ampexp.c:641-652 | the gain computed is the only minimiser of the plain squared error over all reals |
| `VectorQuantiser.GainShapeVq` | plugin-build/libcodec2-android/src/codec2/src/ampexp.c:629-675 | if some codeword's weighted error at its own best gain lies below BIG, returns the first for which it is least, and that gain, and adds its plain error |
| `VectorQuantiser.GainIsBestIff` | plugin-build/libcodec2-android/src/codec2/src/ampexp.c:656-664 | for any weights of positive total, a gain minimises the weighted metric over all reals exactly when the weighted sum of the differences is the total weight times that gain |
| `VectorQuantiser.BestGainSuitsMetricIff` | plugin-build/libcodec2-android/src/codec2/src/ampexp.c:652-664 | the gain computed minimises the weighted metric exactly when weighting does not change the mean difference |
| `VectorQuantiser.JointlyOptimalIff` | plugin-build/libcodec2-android/src/codec2/src/ampexp.c:639-670 | word and gain found are the best of all words at all gains exactly when the codebook has a balanced word whose least metric is no larger than any other word's |
| `VectorQuantiser.JointlyOptimal` | plugin-build/libcodec2-android/src/codec2/src/ampexp.c:639-670 | so they are when every codeword is balanced |
| `VectorQuantiser.CommonWeightOptimal` | plugin-build/libcodec2-android/src/codec2/src/ampexp.c:639-670 | with one positive weight common to all entries present, also for the plain error |
| `VectorQuantiser.GainIgnoresWeights` | plugin-build/libcodec2-android/src/codec2/src/ampexp.c:645-652 | an unbalanced codeword to which another gain gives a smaller metric |
| `VectorQuantiser.Vq` | plugin-build/libcodec2-android/src/codec2/src/ampexp.c:368-397 | if some codeword's weighted error lies below BIG, returns the first whose weighted error is at most that of every codeword, and adds its plain error |
| `VectorQuantiser.WeightsDecide` | plugin-build/libcodec2-android/src/codec2/src/ampexp.c:384-391 | an input whose nearest codeword is not the one returned, as the weights decide |
| `VectorQuantiser.SplitVq` | plugin-build/libcodec2-android/src/codec2/src/ampexp.c:400-419 | moves the codeword with the least weighted error from input to output at every entry where the input is present, and changes nothing else |
| `VectorQuantiser.ResidueEnergy` | plugin-build/libcodec2-android/src/codec2/src/ampexp.c:400-419 | what stays in the input has the plain error of the codeword as its energy |
| `Markers.RefreshMarkerColors` | server/nodered/lib/cot-maps.js:924-964 | sets every marker to its opacity of the moment and lists, each in order, the changed markers, the expired keys and the retired keys |
| `Markers.PickFate` | server/nodered/lib/cot-maps.js:924-964 | the expired and the retired keys are those at exactly the indices with that fate, in the order of the keys |
| `Markers.PickChanging` | server/nodered/lib/cot-maps.js:924-964 | the changed markers come in the order of their first keys |
| `Markers.UntouchedIff` | server/nodered/lib/cot-maps.js:945 | exactly an unmanaged marker without a start or a stale time is left alone |
| `Markers.FadeOnly` | server/nodered/lib/cot-maps.js:164-184 | whatever refreshes follow, a marker's opacity never rises |
| `Markers.FewUpdates` | server/nodered/lib/cot-maps.js:328-339 | a managed marker is reported as updated at most 16 times, any other at most 95 times |
| `Markers.ShownOnGrid` | server/nodered/lib/cot-maps.js:335-338 | managed opacities lie on the 0.05 grid from 0.2 to 1, others on the 0.01 grid |
| `Markers.ShownIsNear` | server/nodered/lib/cot-maps.js:940-960 | what is shown is the retirement opacity exactly, or the age's opacity to the nearest hundredth |
| `Markers.SolidThreeQuarters` | server/nodered/lib/cot-maps.js:328-334 | a placed marker is solid for three quarters of its retention, and for ever without a retirement time |
| `Markers.FadesLastQuarter` | server/nodered/lib/cot-maps.js:335-338 | over the last quarter its opacity is within 0.025 of the line from 1 to 0.2 |
| `Markers.FloorAtRetirement` | server/nodered/lib/cot-maps.js:328-338 | from its retirement on, or with no retention at all, it is 0.2 |
| `Markers.AgeLine` | server/nodered/lib/cot-maps.js:172-184 | an incident marker's opacity falls along a line over its lifespan, any other's over as long once it is stale |
| `Markers.AgeEnds` | server/nodered/lib/cot-maps.js:172-184 | before that it is 1 and after it 0 |
| `Markers.AgeWithoutSpan` | server/nodered/lib/cot-maps.js:172-181 | without a lifespan an incident marker never fades, and any other is gone once stale |
| `Markers.ExpiresAt` | server/nodered/lib/cot-maps.js:946-953 | a marker with a lifespan expires exactly when 19 twentieths of its fading time are over |
| `Markers.RetiredOnly` | server/nodered/lib/cot-maps.js:935-938 | from its retirement time on a managed marker is only reported as retired |
| `Markers.FateIsFinal` | server/nodered/lib/cot-maps.js:932-955 | retirement and expiry are final |
| `Markers.ResultsExclude` | server/nodered/lib/cot-maps.js:925-963 | none of the three result lists of one refresh repeats itself, and no marker is in two |
| `RelayPositions.Relay.OnPosition` | server/mesh-relay/relay.py:1063-1065 | a report is the step of the runs below that emits with the exact time, and the newest entry of the queue |
| `RelayPositions.Relay.SeedFromNodedb` | server/mesh-relay/relay.py:684-779 | re-emits exactly the nodes that pass the filters and are due |
| `RelayPositions.SeededNode` | server/mesh-relay/relay.py:686-779 | a pass emits each node exactly when that node's own data call for it |
| `RelayPositions.PassInOrder` | server/mesh-relay/relay.py:684-779 | a pass emits exactly the nodes whose own data call for it, in the order in which it lists them |
| `RelayPositions.PassesIff` | server/mesh-relay/relay.py:684-717 | in every run a node meets the filters exactly when it has a position and, unless there is no age limit or it is the bridge, was heard within the limit and has not made its last report before it |
| `RelayPositions.PositionIs` | server/mesh-relay/relay.py:694-704 | the decimal position counts unless both parts are 0, the scaled integers only if neither is 0 |
| `RelayPositions.PassShowsPosition` | server/mesh-relay/relay.py:750-757 | after a pass whose filters a node meets, its last emission is within a ten-millionth of a degree of its position |
| `RelayPositions.QueueHoldsNewest` | server/mesh-relay/relay.py:639-656 | in every run the queue holds the newest 100 of all emissions, in order |
| `RelayPositions.AgeBoundedIff` | server/mesh-relay/relay.py:684-779 | in every run whose passes all see a node and lie at most P apart, its last emission is at every action at most 48*STALE_MINUTES+P seconds old, exactly when no pass overlooks a report just past the threshold and then leaves the node without an emission for longer than P less the excess |
| `RelayPositions.NeverOverlooked` | server/mesh-relay/relay.py:750-757 | in particular the bound holds in every such run in which no pass, 48*STALE_MINUTES whole seconds after a report, shows a larger fraction of a second than the report |
| `RelayPositions.PassKeepsFresh` | server/mesh-relay/relay.py:747-779 | after a pass that sees the node, its last emission is at most 48*STALE_MINUTES seconds old exactly when the pass does not overlook it, and in any case less than a second more |
| `RelayPositions.NeverStale` | server/mesh-relay/relay.py:747-779 | with passes at most P apart, the last emission is less than 48*STALE_MINUTES+P+1 seconds old at all times |
| `RelayPositions.RepeatsAreApart` | server/mesh-relay/relay.py:750-757 | in every run, a seed within a ten-millionth of a degree of the node's emission before comes 48*STALE_MINUTES after that exactly when it was a report, or more whole seconds passed, or the clock's fraction is no smaller; and always less than a second short of it |
| `RelayPositions.SeedsTooClose` | server/mesh-relay/relay.py:684 | a run that seeds an unmoved position twice, 47.2 seconds apart at a one-minute stale time |
| `RelayPositions.ReportTooOld` | server/mesh-relay/relay.py:684 | a run in which a report is left standing beyond 48 seconds and the interval between the passes |
| `RelayPositions.Relay.FixedPositionPlis` | server/mesh-relay/relay.py:199-232 | seeds the fixed nodes without a young emission or seed, and remembers when |
| `RelayPositions.PlanInOrder` | server/mesh-relay/relay.py:199-232 | publishes exactly the entries with coordinates, no young emission and no young seed, with an earlier seed or a clock past one interval, in the order of the table |
| `RelayPositions.PlanRemembers` | server/mesh-relay/relay.py:230-231 | remembers exactly what it publishes, at the time of the pass |
| `RelayPositions.FixedNodesCovered` | server/mesh-relay/relay.py:208-231 | after every pass a fixed node has an emission or seed younger than the interval, except exactly when the clock is below one interval, it was never seeded and has no young emission |
| `RelayPositions.SeedsApart` | server/mesh-relay/relay.py:214-230 | in every run, any two seeds of one node's fixed position are at least the interval apart |
| `RateLimit.AiAnalyzer.CheckRateLimit` | server/incident-tracker/src/analysis/ai_analyzer.py:37-43 | starts a new window after an hour and compares the count with the cap |
| `RateLimit.AiAnalyzer.StartAnalysis` | server/incident-tracker/src/analysis/ai_analyzer.py:65-81 | counts exactly the calls that go out |
| `RateLimit.AtMostTwiceTheCap` | server/incident-tracker/src/analysis/ai_analyzer.py:37-43 | in every run no half-open hour holds more than twice the cap, and no counter window more than the cap |
| `RateLimit.RefusedOnlyWhenFull` | server/incident-tracker/src/analysis/ai_analyzer.py:37-43 | in every run a call that could go out is refused only when a cap's worth of calls went out in the 3600 seconds before it |
| `RateLimit.HourlyCapIffSpread` | server/incident-tracker/src/analysis/ai_analyzer.py:37-43 | calls in time order keep to a cap in every half-open hour exactly when each comes an hour after the call a cap's worth of calls before |
| `RateLimit.CallKeepsCap` | server/incident-tracker/src/analysis/ai_analyzer.py:42-43 | next to calls that keep to the cap, one more does exactly when there are fewer than the cap or the cap-th last is an hour old |
| `RateLimit.CapHoldsIff` | server/incident-tracker/src/analysis/ai_analyzer.py:37-43 | a run keeps to the cap in every hour exactly when each of its calls met that check |
| `RateLimit.TwiceTheCapHappens` | server/incident-tracker/src/analysis/ai_analyzer.py:40-42 | for every cap, the requests of two bursts put exactly twice the cap into one hour |
| `Fountain.XorInPlace` | plugin-build/app/src/main/java/com/atakmap/android/meshtastic/util/fountain/FountainCodec.java:407-412 | the in-place loop is the byte-wise exclusive or, over the shorter length |
| `Fountain.XorOut` | plugin-build/app/src/main/java/com/atakmap/android/meshtastic/util/fountain/FountainCodec.java:178-189 | taking a member out of a combined block is combining it once more |
| `Fountain.SplitIntoSourceBlocks` | plugin-build/app/src/main/java/com/atakmap/android/meshtastic/util/fountain/FountainCodec.java:250-263 | cuts the data into blocks and pads the last with zeros |
| `Fountain.SplitEntry` | plugin-build/app/src/main/java/com/atakmap/android/meshtastic/util/fountain/FountainCodec.java:250-263 | byte p of block i is byte i*size+p of the data, or 0 beyond its end |
| `Fountain.CountIsLeast` | plugin-build/app/src/main/java/com/atakmap/android/meshtastic/util/fountain/FountainCodec.java:232-235 | the blocks cover the data, and no fewer would |
| `Fountain.Reassemble` | plugin-build/app/src/main/java/com/atakmap/android/meshtastic/util/fountain/FountainCodec.java:265-278 | copies the blocks in a row into the given length |
| `Fountain.AssembledSplit` | plugin-build/app/src/main/java/com/atakmap/android/meshtastic/util/fountain/FountainCodec.java:250-278 | reassembling undoes splitting for every length and block size |
| `Fountain.Encode` | plugin-build/app/src/main/java/com/atakmap/android/meshtastic/util/fountain/FountainCodec.java:55-104 | block 0 combines the source blocks selected by its seed with degree 1 forced, every other those selected by its seed with the degree sampled, and its payload is their exclusive or |
| `Fountain.SeedsDiffer` | plugin-build/app/src/main/java/com/atakmap/android/meshtastic/util/fountain/FountainCodec.java:418-421 | two blocks of a transfer share a seed exactly when their numbers agree in 16 bits |
| `Fountain.IndicesRegenerated` | plugin-build/app/src/main/java/com/atakmap/android/meshtastic/util/fountain/FountainCodec.java:349-372 | for each of the first 65536 blocks the receiver selects from the seed what the encoder did: with degree 1 forced for block 0, and the degree sampled for every other |
| `Fountain.Decode` | plugin-build/app/src/main/java/com/atakmap/android/meshtastic/util/fountain/FountainCodec.java:138-218 | decodes exactly when every nonempty set of source blocks is met by some received block in exactly one member, and then returns the encoded data |
| `Fountain.PeeledAllIff` | plugin-build/app/src/main/java/com/atakmap/android/meshtastic/util/fountain/FountainCodec.java:168-209 | when peeling comes to rest, it has found everything exactly when nothing could stop it |
| `Fountain.AnyArrivalEncodes` | plugin-build/app/src/main/java/com/atakmap/android/meshtastic/util/fountain/FountainCodec.java:138-218 | blocks that arrive in any order and number still encode the data |
| `Fountain.MoreBlocksHelp` | plugin-build/app/src/main/java/com/atakmap/android/meshtastic/util/fountain/FountainCodec.java:138-218 | more blocks never make a decodable list undecodable, and order and repetition do not matter |
| `Fountain.NeedsSingleBlock` | plugin-build/app/src/main/java/com/atakmap/android/meshtastic/util/fountain/FountainCodec.java:62-70 | decoding needs a block of a single source block |
| `Fountain.NeedsAsMany` | plugin-build/app/src/main/java/com/atakmap/android/meshtastic/util/fountain/FountainCodec.java:223-228 | decoding needs at least as many blocks as there are source blocks |
| `Fountain.AsManyMayFail` | plugin-build/app/src/main/java/com/atakmap/android/meshtastic/util/fountain/FountainCodec.java:14-17 | as many distinct blocks, one of a single source block among them, may not do |

## Left out

- FtsReception.Handler.PollClient: the XML parser is a parameter that accepts or refuses a complete block; the events of an accepted block are taken to be those the end tags delimit, and re-serialisation is not modelled beyond the removal of newlines.
- FtsReception.Handler.MonitorForData: the list of messages is kept from poll to poll, where the source starts a new one for each.
- CotFraming.RelayIsLossless: the bridge decodes an event with replacement and encodes it again, which changes bytes that are not UTF-8.
- CotStreamReader.Reader.ReadEvent: decoding of the returned bytes as UTF-8 is not modelled; a socket answer sequence that runs out counts as a disconnect.
- Bridge.NothingIsLost: shutdown, a buffer of capacity 0 (where marking an event as sent raises an error, see CotBuffer.CoTBuffer.MarkSent), the order of deliveries over a whole run and at-most-once delivery are not covered; the code promises none of the latter two.
- Bridge.StepInv: an event carrying the bridge's own identifier is discarded before it is accepted and is no step of the model.
- BitPacking.InjectErrors: a negative first bit, which the source does not check, and what lies outside the frame when a bit there is inverted.
- BlockFilters.Fir.Process: clipping and scaling before and after the filters, the unfiltered mode of the SSB stage, frequency shift, fading gains and noise.
- Fountain.Encode: the degree distribution and the generator are a function from seed, block count and forced degree to distinct indices; empty data, for which the source cannot build the distribution; a block number at which the seed repeats.
- Fountain.Decode: log lines, which fail for payloads of fewer than four bytes; blocks whose payload has another length or whose indices lie beyond the block count, which make the source fail.
- VectorQuantiser.SplitVq: the accumulated error of the search is not returned, as the source starts it from an uninitialised variable.
- Markers.RefreshMarkerColors: invalid dates and missing markers.
- RelayPositions.Relay.SeedFromNodedb: the telemetry fields of an emission; the hand-over to the event loop is immediate.
- Titles beyond Latin-1 whitespace and ASCII lower-casing.
- XML element trees, attribute extraction, popups, KML, MQTT, serial and HTTP sources, geocoding, configuration, fleet tools: they hold no long-run state worth a proof, or only easy facts.
- codec2's transforms, LDPC codes and codebooks, and all floating-point rounding.
