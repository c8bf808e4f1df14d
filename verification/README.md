# Stock data service: protocol, queue and desk models

A Dafny model of the parts of the service whose correctness is not visible from one function: the decoders of the
9528 protocol, its warm connection pool, the task queue in its two implementations, the arbitration between runner,
administrators and device operations, the market broker, the watchlist tables, and the replay and MACD arithmetic.
`dafny verify dfyconfig.toml` checks all of it.

## How it is built

Code that works by changing things step by step is a class or a method with loops (`GovDecoder`, `SnappyDecoder`,
`CurveRows`, `FrameReader`, `WarmPool`, `InMemoryStreams`, `RedisStreams`, `RunnerControl`, `RunnerLoop`,
`MarketBroker`, `Watchlist`, `Macd`, `Replay`). Each such method is proved equal to a function on values, and the
functions are what the theorems are about. Lemmas called `...Means` say what such a function does without naming it:

- `GovCodec`, `SnappyBlock`, `CoreBase64`: decoders against the serialisation they invert.
- `GovCodes`, `SnappyTags`: the code words and tags of the two formats, and payloads whose meaning can be read off them.
- `CorePacket`, `PatchedBodies`: capture-time validation against request-time preparation, and what a prepared packet
  asks for.
- `WarmPoolRuns`: all interleavings of the pool's locked blocks with authentication, use and closing in between.
- `InMemoryQueue`, `QueueMeaning`, `QueueInvariants`: the queue's operations, what each does in statuses, times and
  positions, and what all of them keep, alone and over runs.
- `RedisQueue`, `RedisMeaning`, `LeaseAgreement`, `QueueSimulation`, `SimulationRuns`, `TellingApart`: the Redis scripts, when exactly
  the two stores can be told apart, and runs that do.
- `AdmissionCounter`: how far the cached counter is off.
- `RunnerControl`, `RunnerLoop`: the gate between sessions, device operations and claims, composed with the queue.
- `BrokerRuns`: what a client receives over a run.
- `SortOrders`: table rows that stand for lists.

Lock-held blocks and Lua scripts are single steps. Clocks are integers handed to each call, and need not advance
between calls unless a lemma says so; where the two stores are compared, both are called at the same times. Hashes of owner tokens are injective; ids of new tasks and connections are fresh.

## Where the code does not do what was hoped

- A compressed curve segment that happens to be as long as the raw table is taken as raw rows
  (`CurveRows.CompressedFormCanBeTakenForRaw`; exact condition in `CurveRows.CompressedFormAgrees`).
- A symbol does not always arrive where the template stood: bytes around a single-byte template can, with the first or
  last digit of the symbol, spell the template in UTF-16, which is searched for later (`PatchedBodies.SymbolSpillsOver`;
  exact condition in `PatchedBodies.PatchPutsTheSymbolIn`).
- In the pool alone, a raising background start clears the refill flag of a newer generation, so two refills can run
  (`WarmPoolRuns.TwoRefillsCanRun`; exact condition in `WarmPoolRuns.CoverageIsKeptExactly`). That is possible only for
  callers of the pool that go past the client's request lock; through the client it never happens
  (`WarmPoolRuns.ClientKeepsOneRefill`).
- Retrying a task that failed while still queued puts it behind the queue in memory and leaves it in front in Redis
  (`TellingApart.FailingInQueueTellsApart`; exact condition in `QueueSimulation.StepMatches`).
- Under a live lease the memory queue cleans up acceptance tasks of earlier leases, Redis does not
  (`TellingApart.CleanupTellsApart`; exact condition in `LeaseAgreement.CleanupAgreesExactly`).
- Binding an acceptance task does not count it, while finishing it discounts it; each deployment leaves the admission
  counter one too low (`AdmissionCounter.DeploymentLosesACount`, `TellingApart.DeploymentTellsApart`; exact effects in
  `AdmissionCounter.StepDrifts`).
- The comment at level2_service/runner.py:1180-1182 says that taking the device stops the worker from claiming any new
  task. While the market is closed it does not (`RunnerControl.ClosedMarketClaimsUnderLock`); the model follows the code.
- A raw `transition` from WAITING_ADMIN to PARTIAL breaks the deployment freeze just as one to RUNNING does
  (`TellingApart.WaitingBecomesPartial`; exact condition in `QueueInvariants.StepKeepsFrozen`). The runner makes neither
  (`RunnerLoop.RunOnce`).
- Requeueing a task that is already queued is an error in memory and answered in Redis
  (`TellingApart.RequeueingTellsApart`; exact condition in `QueueSimulation.StepMatches`).

## Model

| member | source | states |
|---|---|---|
| `GovCodec.ReadBitUndoesPut` | level2_service/direct_market.py:154-181 | Reading a bit gives back exactly what writing one put there, and the other way round, whatever the phase of the interleaved control byte; the eager refill on the eighth bit is part of it |
| `GovCodec.WrittenTokenIsRead` | level2_service/direct_market.py:203-248 | A serialised token (pair, or run of a new or repeated byte with its prefix-coded length) is read back with the same rest of the stream |
| `GovCodec.ReadTokenWasWritten` | level2_service/direct_market.py:203-248 | Whatever token the reader finds, the stream it was read from is that token serialised in front of the rest |
| `GovCodec.DecodeGovExact` | level2_service/direct_market.py:185-255 | For every payload and length: decoding succeeds with `output` exactly when the payload serialises tokens that expand to it, no token starting after the length is reached and the last run cut at it |
| `GovCodec.WireIsUnambiguous` | level2_service/direct_market.py:185-255 | One payload serialises at most one token list for a length, up to what is never looked at |
| `GovCodec.GovRoundTrip` | level2_service/direct_market.py:185-255 | Serialising any valid token list and decoding it gives the expansion cut at the length |
| `GovCodec.DecodeGovLength` | level2_service/direct_market.py:249-251 | A decoded output has exactly the requested length: the final check can never fail |
| `GovDecoder.CoreGovBitReader.constructor` | level2_service/direct_market.py:157-163 | The reader stands at the start of the stream the payload opens |
| `GovDecoder.CoreGovBitReader.Bit` | level2_service/direct_market.py:165-175 | The fields advance exactly as reading one bit of the abstract stream, or the payload is at its end |
| `GovDecoder.CoreGovBitReader.Byte` | level2_service/direct_market.py:177-182 | Same for a byte, which is taken between control bytes |
| `GovDecoder.DecodeLongRun` | level2_service/direct_market.py:242-248 | The 12+N loop with its 32767 continuations grows the output as the token it reads says |
| `GovDecoder.DecodeRun` | level2_service/direct_market.py:212-248 | The nested prefix branches append the run of exactly the length the code word stands for |
| `GovDecoder.DecodeCoreGov` | level2_service/direct_market.py:185-255 | The imperative decoder terminates on every input and equals the decoding function that the exactness theorem is about |
| `GovCodes.LengthCodes` | level2_service/direct_market.py:203-248 | The code words of run lengths, bit by bit: 0, 100, 101, 110, 111000 to 111110 for one to eleven, and 111111 in front of the chunks of twelve and more |
| `GovCodes.RunPayload` | level2_service/direct_market.py:203-241 | For each length from one to eleven and every byte: the literal control byte, the byte and a zero decode to that many repetitions; the next control byte is taken before any literal |
| `GovCodes.WideChunkPayload` | level2_service/direct_market.py:242-248 | 255, a byte, a zero and two chunk bytes decode to 13+256H+L times the byte, for every chunk below 32767 |
| `GovCodes.FullChunkPayload` | level2_service/direct_market.py:242-248 | 255, a byte, a zero, two 255s and a chunk byte decode to 32780+N times the byte: a full chunk goes on |
| `GovCodes.NewBytePayload` | level2_service/direct_market.py:208-212 | Control bits 10 bring in a new byte, which a run of one writes twice; the first byte is not repeated |
| `SnappyBlock.DecodeSnappyExact` | level2_service/direct_market.py:258-339 | For every byte string: decoding succeeds with `output` exactly when the string is a preamble for at most 16 MiB followed by the serialisation of well-formed elements meaning `output` (sections 1, 2.1 and 2.2 of the Snappy format description); its length equals the preamble |
| `SnappyBlock.CopyIsPeriodic` | level2_service/direct_market.py:326-333 | Every byte of a copy, overlapping or not, repeats the output with period `offset` |
| `SnappyBlock.ElementReadIsSerialised` | level2_service/direct_market.py:279-325 | What the reader accepts as an element is the serialisation of that element |
| `SnappyBlock.SerialisedElementIsRead` | level2_service/direct_market.py:279-325 | Every well-formed element is read back from its serialisation, whatever follows |
| `SnappyDecoder.DecodePreamble` | level2_service/direct_market.py:262-276 | The shift-and-or loop reads the little-endian base-128 preamble of at most five bytes |
| `SnappyDecoder.CopyWithin` | level2_service/direct_market.py:332-333 | The byte-by-byte copy appends the periodic extension |
| `SnappyDecoder.DecodeLiteral` | level2_service/direct_market.py:283-306 | The literal branch reads exactly one literal element |
| `SnappyDecoder.DecodeCopy` | level2_service/direct_market.py:308-325 | The three copy branches read exactly one copy element |
| `SnappyDecoder.DecodeCoreSnappy` | level2_service/direct_market.py:258-339 | The imperative decoder terminates on every input and equals the decoding function that the exactness theorem is about |
| `SnappyTags.CopyTags` | level2_service/direct_market.py:308-325 | Every tag byte of the three copy types: its low two bits are the type, the next bits the length, the top three bits of a type 1 tag the high part of the offset; offsets are little-endian |
| `SnappyTags.LiteralTags` | level2_service/direct_market.py:283-306 | Literals of up to sixty bytes are counted in the tag, longer ones in the bytes after it; a cut literal is refused |
| `SnappyTags.LiteralBlocks` | tests/test_direct_market.py:2004-2017 | Every string of up to 256 bytes as one literal, in the three forms that occur, decodes to itself |
| `SnappyTags.OverlappingCopy` | tests/test_direct_market.py:2004-2017 | Three bytes and a copy of six from three back decode to the bytes three times |
| `SnappyTags.RefusedBlocks` | level2_service/direct_market.py:326-339 | Offset zero, an offset before the start, and a block longer or shorter than its preamble are refused; the same block with the right offset and length decodes |
| `CoreBase64.CharRoundTrip` | level2_service/direct_market.py:51-67 | For every alphabet of 64 distinct characters that passes the table check, the two translation tables undo each other |
| `CoreBase64.Base64RoundTrip` | level2_service/direct_market.py:70-86 | Decoding an encoded payload gives the payload, for every accepted alphabet and payload (section 4 of RFC 4648) |
| `CoreBase64.EncodeLength` | level2_service/direct_market.py:70-72 | Encoded text is four characters per started group of three bytes |
| `CoreBase64.DecodedLength` | level2_service/direct_market.py:75-86 | An accepted text is exactly as long as the encoding of what it decodes to, but for pad characters after its last complete group |
| `CoreBase64.AlphabetMeans` | level2_service/direct_market.py:51-67 | The accepted alphabets are those of 64 different ASCII characters without the pad, and the standard one is among them |
| `CoreBase64.ThreeBytes` | level2_service/direct_market.py:70-72 | Three bytes read as one number are four digits of base 64, spelt in the given alphabet, first digit first |
| `CoreBase64.SpareBitsAreDropped` | level2_service/direct_market.py:75-86 | The bits of the last group after its last byte are dropped, whatever they are |
| `CoreBase64.UnfinishedGroups` | level2_service/direct_market.py:75-86 | A group of three characters, padding behind padding, and padding alone are refused |
| `CorePacket.ReplaceKeepsLength` | level2_service/direct_market.py:121-124 | Replacing by an equally long string keeps the length |
| `CorePacket.SubstituteFindsTheOriginal` | level2_service/direct_market.py:120-129 | The replacement loop reports a change exactly when one of the searched strings occurs, whatever it is replaced by |
| `CorePacket.PatchIsSymbolIndependent` | level2_service/direct_market.py:89-136 | Whether a packet can be patched does not depend on the new symbol, as long as both are six ASCII digits |
| `CorePacket.PatchedPacketIsSound` | level2_service/direct_market.py:89-151 | A patched packet has the length, the header and the outer validity of the captured one; what its body says is in the rows of PatchedBodies |
| `CorePacket.ValidatedCoreMaterial` | level2_service/app_sessions.py:330-417 | Capture-time validation accepts exactly the material meeting the stated conditions, and fails with the session or the template error otherwise |
| `CorePacket.AcceptableMeans` | level2_service/app_sessions.py:330-417 | What is accepted, field by field; 64 different characters are all that is asked of the alphabet, and that they are ASCII without the pad character follows from the packets |
| `CorePacket.SessionFaultMeans` | level2_service/app_sessions.py:330-417 | Which faults are reported as a missing session: a missing field of the session, or an unusable port or packet when no template field is missing |
| `CorePacket.CaptureSuffices` | level2_service/direct_market.py:1369-1397 | Material accepted at capture time makes packet preparation succeed for every supported symbol of six ASCII digits, each packet keeping length, header and validity; what the packets then ask for is PatchedBodies.PreparedPacketsAsk |
| `CorePacket.CaptureIsNotTooStrict` | level2_service/app_sessions.py:393-412 | A list of valid packets that can be patched for any symbol is accepted by the capture-time probe |
| `PatchedBodies.OuterMeans` | level2_service/direct_market.py:139-151 | The accepted packets byte by byte: four 0xfd, the length of the rest in eight hexadecimal digits by place value, a zero byte, at most 16 MiB |
| `PatchedBodies.ReplaceJoins` | level2_service/direct_market.py:121-124 | Replacing puts the replacement between exactly the parts that lie between the occurrences, from the left and without overlap |
| `PatchedBodies.PatchPutsTheSymbolIn` | level2_service/direct_market.py:89-136 | For every packet, template and symbol: with `t` and `r` the bytes of the two symbols in the first spelling that occurs, stated digit by digit, the patched body is the captured one with `r` for every `t` if and only if the new bytes do not spell the template for a later search; the packet is refused exactly if its text has pad characters to spare |
| `PatchedBodies.PatchOfASingleOccurrence` | level2_service/direct_market.py:89-136 | A body `a`, template, `b` becomes `a`, symbol, `b`, in each of the three spellings; the bytes before the body stay |
| `PatchedBodies.DifferentSymbolsDifferentPackets` | level2_service/direct_market.py:89-136 | Packets patched for different symbols differ |
| `PatchedBodies.AcceptedPacketAsks` | level2_service/app_sessions.py:393-412 | Every packet the capture accepted holds the template in one of the three spellings |
| `PatchedBodies.PreparedPacketsAsk` | level2_service/direct_market.py:1369-1397 | Each packet sent for a symbol asks for it where the captured one asked for the template, exactly under the condition above |
| `PatchedBodies.RequestLineIsPatched` | tests/test_direct_market.py:668-676 | A UTF-16 request line for 600519 becomes the line for 601872, byte for byte |
| `PatchedBodies.SymbolSpillsOver` | level2_service/direct_market.py:110-129 | Template 600000, symbol 000001 and a body in which the symbol's first digit completes the template in another spelling: the second search rewrites it and the symbol does not arrive |
| `FrameReader.Connection.Receive` | level2_service/direct_market.py:1521-1557 | One recv: a non-empty piece of what is left, no longer than asked, or the end, a failure or the deadline |
| `FrameReader.ReadExact` | level2_service/direct_market.py:1521-1557 | Under any splitting: either exactly the next `length` bytes, consumed, or the error; on a clean schedule it fails exactly when the stream is too short |
| `FrameReader.ReadFrame` | level2_service/direct_market.py:1591-1627 | One header and body, byte-exact, or the end of the stream |
| `FrameReader.ReadFrames` | level2_service/direct_market.py:1582-1647 | A success returns a whole-frame prefix of the stream's frames of the allowed number; on a clean schedule the result is a function of the stream alone, so it does not depend on how recv splits it |
| `FrameReader.NonEmptyFramesAreValidPackets` | level2_service/direct_market.py:139-151 | Every non-empty frame passes the outer packet validation |
| `FrameReader.FramesAreWhole` | level2_service/direct_market.py:1582-1647 | The frames of a stream are valid and concatenate to a prefix of it |
| `FrameReader.FramesRoundTrip` | level2_service/direct_market.py:1582-1647 | Frames sent one after the other are the frames of the stream |
| `FrameReader.CurveFrameMeans` | level2_service/direct_market.py:1560-1580 | A curve frame, byte by byte: head length, the two nibbles of the type word, and cv2 or cv3 in any case at the start of the raw or Snappy body or after four bytes |
| `FrameReader.LimitMeans` | level2_service/direct_market.py:1582-1647 | What may be read holds no more curve frames than asked for, ends with the last of them, and ends earlier only at the frame limit or the end of the stream |
| `CurveRows.AtIsInjective` | level2_service/direct_market.py:668-674 | No two cells of the table share an index |
| `CurveRows.AtIsOnto` | level2_service/direct_market.py:668-674 | Every index of the table is some cell |
| `CurveRows.TableIsUnique` | level2_service/direct_market.py:668-674 | Row-major and column-major form determine each other |
| `CurveRows.FillColumn` | level2_service/direct_market.py:668-674 | One pass of the outer loop writes one column's cells and leaves all others alone |
| `CurveRows.Transpose` | level2_service/direct_market.py:667-675 | The double loop writes, in place, the row-major table of the column bytes, each index once |
| `CurveRows.DecodeData` | level2_service/direct_market.py:647-676 | The nested function accepts exactly the raw form and well-formed compressed forms, and returns the row bytes of the table |
| `CurveRows.CompressedFormAgrees` | level2_service/direct_market.py:647-676 | A compressed table decodes to the rows its raw form decodes to if and only if the segment is not as long as the raw table (or holds those very bytes) |
| `CurveRows.CompressedFormCanBeTakenForRaw` | level2_service/direct_market.py:611-653 | Eight zero half words, under a field a header can describe: the compressed segment is sixteen bytes long like the raw table, and every table read from it differs from the one it stands for |
| `CurveRows.ReadDescriptors` | level2_service/direct_market.py:611-632 | The descriptor loop returns the fields exactly when ids are distinct, types are supported and the widths sum up to the row width |
| `CurveRows.FieldsPartitionTheRow` | level2_service/direct_market.py:680-698 | Every byte of a row belongs to exactly one field |
| `CurveRows.FieldStaysInItsRow` | level2_service/direct_market.py:680-698 | No field of any row reads outside that row |
| `CurveRows.DecodeField` | level2_service/direct_market.py:681-697 | One field's column holds, row by row, the values of its bytes in that row; CurveRows.TableMeans and CurveRows.FieldValueMeans say which numbers these are |
| `CurveRows.DecodeTable` | level2_service/direct_market.py:644-698 | Decoding either form yields the columns of the table it stands for, keyed by field id |
| `CurveRows.DescribedMeans` | level2_service/direct_market.py:614-630 | Id, type and width of the k-th field from the bytes of the header: the id is the type word without its type nibble but with the top bit |
| `CurveRows.FieldValueMeans` | level2_service/direct_market.py:685-696 | Bytes to number without naming the decoder: kind 1 is unsigned, kinds 2 and 3 are two's complement, each in its range |
| `CurveRows.TableMeans` | level2_service/direct_market.py:676-698 | Every value of every decoded table as a sum of the bytes at its row and field offset, with its sign |
| `CurveRows.HalfWordRoundTrip` | level2_service/direct_market.py:689-692 | The two's complement bytes of any half word, placed in its row and field, read back as that half word |
| `CurveRows.WordRoundTrip` | level2_service/direct_market.py:685-696 | The same for every signed and unsigned word |
| `CurveRows.AllOnesIsMinusOne` | level2_service/direct_market.py:689-692 | A signed half word of two 255s is -1 |
| `CurveRows.SameTableMeans` | level2_service/direct_market.py:665-671 | Byte `column * points + row` of the columns is byte `row * width + column` of the rows |
| `WarmPool.Core9528WarmPool.constructor` | level2_service/direct_market.py:1773-1795 | A new pool is valid, open, empty and at generation zero |
| `WarmPool.Core9528WarmPool.ScheduleLocked` | level2_service/direct_market.py:1832-1857 | The first locked block of a refill request keeps the pool valid and decides as the block of the run theorems does |
| `WarmPool.Core9528WarmPool.RefillLocked` | level2_service/direct_market.py:1881-1900 | A connection of the pool's session and the expected generation IS parked in an open pool with nothing parked, and then neither returned nor closed; any other is handed back to be closed; validity is kept and no stale one is ever found |
| `WarmPool.Core9528WarmPool.AcquireLocked` | level2_service/direct_market.py:1918-1942 | A parked connection of the prepared session within the idle limit IS taken; what is taken was parked, is of that session and the current generation and not idle too long; nothing stays parked, and a stale and an expired connection never come together |
| `WarmPool.Core9528WarmPool.InvalidateLocked` | level2_service/direct_market.py:1960-1968 | Invalidation keeps the pool valid, starts a new generation and leaves nothing parked |
| `WarmPool.Core9528WarmPool.CloseLocked` | level2_service/direct_market.py:1970-1979 | Closing is final, keeps the pool valid and leaves nothing parked |
| `WarmPool.BlocksKeepSound` | level2_service/direct_market.py:1826-1979 | Every locked block keeps: a parked connection carries the pool's fingerprint and generation, and a closed pool has none |
| `WarmPool.NeverStaleAndExpired` | level2_service/direct_market.py:1931-1942 | The branch of acquire that closes an expired connection beside a stale one is never taken in a sound pool |
| `WarmPool.RefillFindsNothingStale` | level2_service/direct_market.py:1894-1896 | The branch of a refill that closes a previously parked connection is never taken in a sound pool with the refill's generation |
| `WarmPool.ScheduleMeans` | level2_service/direct_market.py:1832-1857 | When a refill is refused (closed, filled, under way, or a waiting circuit breaker), and what it changes otherwise: a new session starts a generation and gives up the parked connection |
| `WarmPool.RefillMeans` | level2_service/direct_market.py:1881-1900 | Which of the three outcomes a finished refill has, in terms of generation, session, flag and what is parked |
| `WarmPool.AcquireMeans` | level2_service/direct_market.py:1918-1942 | Which of taken, stale and expired a parked connection becomes, and that none stays parked |
| `WarmPool.EndingMeans` | level2_service/direct_market.py:1960-1979 | What invalidating, closing, confirming and resetting change |
| `WarmPoolRuns.StepConserves` | level2_service/direct_market.py:1649-1979 | No step of any thread loses or duplicates a connection |
| `WarmPoolRuns.StepKeepsInv` | level2_service/direct_market.py:1770-1979 | The invariant of the pool and all its threads is kept by every step of every interleaving |
| `WarmPoolRuns.ConnectionsHaveOneOwner` | level2_service/direct_market.py:1649-1979 | In every interleaving a connection that authenticate returned is in exactly one place: parked, with one thread, or closed |
| `WarmPoolRuns.HandedOutIsConsumed` | level2_service/direct_market.py:1649-1727 | A handed-out connection is with its caller or closed, never parked again |
| `WarmPoolRuns.RefillParks` | level2_service/direct_market.py:1881-1900 | In any state of the system a refill that comes back with a connection of the open, empty pool's session parks that very connection |
| `WarmPoolRuns.ParkedIsHandedOut` | level2_service/direct_market.py:1912-1958 | In any state the next caller for the parked session within the idle limit gets that very connection, and nothing is authenticated for it |
| `WarmPoolRuns.PrewarmedIsHandedOut` | level2_service/direct_market.py:1826-1958 | From a new pool, for every session, time and limit: schedule, start, authenticate, park; the pool then holds connection 0 and the first caller is handed it, with one authentication in all |
| `WarmPoolRuns.HandedOutIsCurrent` | level2_service/direct_market.py:1912-1958 | What acquire hands out was made for the prepared fingerprint, in the generation the pool still has |
| `WarmPoolRuns.NothingOldIsHandedOut` | level2_service/direct_market.py:1960-1968 | Nothing authenticated before an invalidation is handed out after it, over any run |
| `WarmPoolRuns.ClosedPoolHandsOutNothing` | level2_service/direct_market.py:1970-1979 | After closing nothing is handed out, over any run |
| `WarmPoolRuns.NothingLeaks` | level2_service/direct_market.py:1649-1979 | When all threads are done every connection is parked or closed, once |
| `WarmPoolRuns.CoverageIsKeptExactly` | level2_service/direct_market.py:1826-1900 | A step keeps `a live refill of this generation sets the flag, and there is at most one` if and only if it is not a reset under a newer live refill |
| `WarmPoolRuns.RunIsCoveredExactly` | level2_service/direct_market.py:1826-1900 | Over whole runs there is at most one live refill per generation exactly when no such reset happens |
| `WarmPoolRuns.StartsThatNeverRaiseAreHarmless` | level2_service/direct_market.py:1862-1866 | In particular when starting a background task never raises |
| `WarmPoolRuns.ClientKeepsOneRefill` | level2_service/direct_market.py:2019-2068 | Through the client, whose request lock every entry point holds, no reset is harmful: in every such run there is at most one live refill per generation, whatever fails or raises |
| `WarmPoolRuns.TwoRefillsCanRun` | level2_service/direct_market.py:1862-1865 | For callers that go past the client's lock: a concrete run of six steps with a raising start ends with two live refills of one generation, and is not a run the client makes |
| `WarmPoolRuns.LockedRunKeepsUseCurrent` | level2_service/direct_market.py:2019-2068 | Under the client's request lock no session is replaced, invalidated or closed while a caller uses its connection |
| `TaskRecords.CanonicalExists` | level2_service/queue.py:198-207 | The lexicographic key always has a maximum among different tasks |
| `TaskRecords.CanonicalIsUnique` | level2_service/queue.py:198-207 | And only one, so the canonical task is well defined |
| `TaskRecords.TransitionTable` | level2_service/queue.py:154-164 | The allowed transitions are exactly the pairs of the table, written out |
| `QueueMeaning.TransitionMeans` | level2_service/queue.py:690-702 | A transition in literal statuses: missing, refused or answered with the new status, its time and whether it is completed, and nothing else in the store changes |
| `QueueMeaning.CaptureMeans` | level2_service/queue.py:704-718 | From RUNNING or PARTIAL: COMPLETED with the last capture, else PARTIAL and no more completed than before |
| `QueueMeaning.ResultMeans` | level2_service/queue.py:720-769 | From RUNNING or PARTIAL and with a path exactly for long captures: COMPLETED if the values are complete, else PARTIAL, completed either way |
| `QueueMeaning.SnapshotMeans` | level2_service/queue.py:771-794 | From RUNNING only: MARKET_SNAPSHOT, completed |
| `QueueMeaning.CanonicalMeans` | level2_service/queue.py:198-207 | Active before inactive, then newest, last updated, highest id |
| `QueueMeaning.OrdinaryClaimMeans` | level2_service/queue.py:318-330 | Without a lease the first queued ordinary id of the deque becomes RUNNING, and nothing else changes |
| `QueueMeaning.RepeatedSubmissionMeans` | level2_service/queue.py:277-290 | A symbol with ordinary tasks: the canonical one is answered while active, else queued anew at the tail under its old id, if there is room |
| `QueueMeaning.RetryMeans` | level2_service/queue.py:640-656 | Every outcome of a retry, in statuses and positions |
| `QueueMeaning.RefreshMeans` | level2_service/queue.py:658-685 | Every outcome of a refresh, in statuses, times and positions |
| `QueueMeaning.MergeMeans` | level2_service/queue.py:359-399 | Of each symbol's ordinary tasks the canonical one stays as it is; every other one goes and its id leads to it |
| `QueueMeaning.FirstBindMeans` | level2_service/queue.py:492-543 | The owner's first binding queues the offered task under the owner's hash exactly if the lease lives, the id is new and there is room |
| `QueueMeaning.LaterBindMeans` | level2_service/queue.py:492-543 | A later one hands the bound task back, restarted exactly if it is over and there is room |
| `QueueMeaning.ReleaseMeans` | level2_service/queue.py:545-584 | The owner's release ends the lease and takes the bound task away; nobody else's changes anything |
| `QueueMeaning.CleanupMeans` | level2_service/queue.py:799-816 | A task survives a clean-up exactly if it is ordinary or the unexpired lease is bound to it |
| `InMemoryStreams.InMemoryStreams.EnqueueLocked` | level2_service/queue.py:257-275 | Refuses maintenance tasks on the ordinary path and the other way round, enforces the cap, appends |
| `InMemoryStreams.InMemoryStreams.SubmitOrRefresh` | level2_service/queue.py:277-290 | New task, same active task, or refreshed terminal task of the symbol |
| `InMemoryStreams.InMemoryStreams.NextRunnable` | level2_service/queue.py:294-330 | The scan over the lazy deque claims the first queued ordinary id; under a lease only its own task |
| `InMemoryStreams.InMemoryStreams.ResolveTaskId` | level2_service/queue.py:335-341 | The visited-set loop ends after at most one hop, at an id that is no alias |
| `InMemoryStreams.InMemoryStreams.RecoverRunning` | level2_service/queue.py:401-415 | Every running task, and no other, goes back to queued, in place |
| `InMemoryStreams.InMemoryStreams.DeduplicateBySymbol` | level2_service/queue.py:359-399 | The nested loops over groups, aliases and duplicates reach the state described by sets, and count what they saw, kept and deleted |
| `InMemoryStreams.InMemoryStreams.RequeueWaiting` | level2_service/queue.py:625-638 | Waiting tasks go to the tail; reserved and other tasks are refused |
| `InMemoryStreams.InMemoryStreams.RetryFailed` | level2_service/queue.py:640-656 | Failed tasks go to the tail, queued ones are answered, reserved and other tasks are refused |
| `InMemoryStreams.InMemoryStreams.RefreshTask` | level2_service/queue.py:658-685 | Resolves the id, answers active tasks, enforces the cap, resets terminal tasks to the tail |
| `InMemoryStreams.InMemoryStreams.Transition` | level2_service/queue.py:690-702 | Exactly the allowed transitions, with the status, the time and the completion that follow |
| `InMemoryStreams.InMemoryStreams.CompleteCapture` | level2_service/queue.py:704-718 | Answered from RUNNING or PARTIAL exactly: COMPLETED with the last capture, else PARTIAL and open |
| `InMemoryStreams.InMemoryStreams.CompleteResult` | level2_service/queue.py:720-769 | Answered from RUNNING or PARTIAL with a path exactly for long captures: COMPLETED if and only if the values are complete, else PARTIAL, completed either way |
| `InMemoryStreams.InMemoryStreams.CompleteMarketSnapshot` | level2_service/queue.py:771-794 | Answered exactly from RUNNING, as MARKET_SNAPSHOT and completed |
| `InMemoryStreams.InMemoryStreams.AcquireLease` | level2_service/queue.py:428-451 | Refused under a lease or while any task is being worked on |
| `InMemoryStreams.InMemoryStreams.RenewLease` | level2_service/queue.py:453-472 | Only by its owner |
| `InMemoryStreams.InMemoryStreams.BindAcceptance` | level2_service/queue.py:492-543 | Binds one acceptance task, or hands the bound one back, restarted once it is over |
| `InMemoryStreams.InMemoryStreams.ReleaseLease` | level2_service/queue.py:545-584 | Takes the bound task away with the lease |
| `InMemoryStreams.InMemoryStreams.RemoveMaintenanceTask` | level2_service/queue.py:842-889 | The alias loop retargets or drops what pointed at the task |
| `InMemoryStreams.InMemoryStreams.Cleanup` | level2_service/queue.py:799-816 | Removes every maintenance task that no live lease is bound to; no alias is ever touched |
| `QueueInvariants.StepKeepsSound` | level2_service/queue.py:198-593 | Every operation keeps: aliases and live ids apart, alias targets live and ordinary, leases with their owner's hash and an existing bound task carrying it; and every id that led to an ordinary task keeps leading to one of the same symbol |
| `QueueInvariants.RunKeepsKnown` | level2_service/queue.py:335-399 | Over any run an ordinary id once accepted leads to a live ordinary task of its symbol |
| `QueueInvariants.StepKeepsFrozen` | level2_service/queue.py:294-593 | No task but the lease's own is worked on: kept by a call if and only if it is not a raw transition, of a task not bound, to RUNNING or from never completed to PARTIAL |
| `QueueInvariants.RunIsFrozenExactly` | level2_service/queue.py:294-593 | Over a whole run the freeze holds at every moment exactly when no call is such a transition |
| `QueueInvariants.NothingOrdinaryRuns` | level2_service/queue.py:417-593 | From an empty store, after any such run, no ordinary task is running or open-partial while a lease is held |
| `QueueInvariants.ClaimUnderLease` | level2_service/queue.py:294-317 | Under an unexpired lease a claim returns the bound acceptance task with the owner's hash if that is queued, and nothing otherwise |
| `QueueInvariants.OwnerIsNeverRefused` | level2_service/queue.py:453-593 | The owner's renewal and release always succeed, the release removes exactly the bound task: the branches for leases and tasks without a hash are unreachable |
| `QueueInvariants.OthersAreRefused` | level2_service/queue.py:453-593 | Nobody else can renew, bind or release |
| `QueueInvariants.OneTaskPerSymbol` | level2_service/queue.py:359-399 | After deduplication there is at most one ordinary task per symbol |
| `QueueInvariants.ActiveSurvives` | level2_service/queue.py:359-399 | A task that was still active resolves to an active one of its symbol |
| `QueueInvariants.DeduplicationIsIdempotent` | level2_service/queue.py:359-399 | A second pass at any time deletes and changes nothing |
| `RedisStreams.RedisStreamsStore.SubmitOrRefresh` | level2_service/queue.py:946-994 | The script over symbol index, list and counter |
| `RedisStreams.RedisStreamsStore.NextRunnable` | level2_service/queue.py:995-1038 | The popping loop claims the first queued ordinary id and forgets everything before it |
| `RedisStreams.RedisStreamsStore.RecoverRunning` | level2_service/queue.py:1345-1378 | The two loops put the running ids in front, by creation time |
| `RedisMeaning.IndexAfterRelease` | level2_service/queue.py:1151-1246 | The owner's release removes the bound task from tasks and list; the symbol index falls back on the canonical ordinary task of the symbol, or loses the entry; the counter stays |
| `RedisMeaning.IndexAfterMerge` | level2_service/queue.py:1581-1646 | After a merge every symbol with an ordinary task that is not bound is indexed under the canonical one; the counter stays |
| `RedisMeaning.CleanupMeans` | level2_service/queue.py:1247-1344 | Acceptance tasks go exactly while no lease lives and all of them are well-formed, ordinary tasks never; the index changes only if one went |
| `RedisQueue.CreationOrderMeans` | level2_service/queue.py:1345-1378 | Of two recovered tasks the older one comes first; of two created at once the one with the smaller id |
| `RedisStreams.RedisStreamsStore.RequeueWaiting` | level2_service/queue.py:1379-1401 | The script and its fallback; the counter is not touched |
| `RedisStreams.RedisStreamsStore.RetryFailed` | level2_service/queue.py:1402-1427 | The script and its fallback; the id is pushed without removing an older entry |
| `RedisStreams.RedisStreamsStore.RefreshTask` | level2_service/queue.py:1428-1455 | Client-side checks and the script, as one step |
| `RedisStreams.RedisStreamsStore.Persist` | level2_service/queue.py:1932-2061 | Each report answers exactly from the statuses it may come from, with the status it leads to (COMPLETED, PARTIAL, MARKET_SNAPSHOT or the next one), its time and completion; the counter moves by the difference of activity |
| `RedisStreams.RedisStreamsStore.BindAcceptance` | level2_service/queue.py:1075-1150 | The script, which recounts for the cap and leaves the counter alone |
| `RedisStreams.RedisStreamsStore.ReconcileActiveCount` | level2_service/queue.py:2224-2237 | The loop over the index sets the counter to the number of active tasks |
| `QueueSimulation.StepMatches` | level2_service/queue.py:277-593 | From matching stores (same tasks under the same lease, same queued ids in order, consistent index) every call but enqueue, deployments included, is answered alike if and only if it does not requeue a queued task and is not admitted by one store only; and the stores match again if and only if it does not diverge and is not split like that |
| `SimulationRuns.RecoveryOrder` | level2_service/queue.py:1345-1378 | In tidy stores recovery diverges exactly when the running ordinary tasks stand in the deque in another order than they were created |
| `SimulationRuns.StepStaysTidy` | level2_service/queue.py:625-718 | Without raw transitions into or out of the queue, with at most one running ordinary task at recovery, and without cleaning up leftovers under a lease, nothing diverges |
| `SimulationRuns.StoresAnswerAlikeExactly` | level2_service/queue.py:946-1246 | From empty stores, over every such sequence of ordinary and deployment calls, both implementations answer every call alike if and only if no queued task is requeued and nothing is admitted by one store only |
| `SimulationRuns.OrdinaryRunsAnswerAlikeExactly` | level2_service/queue.py:946-1038 | Without bindings, releases, merges and clean-ups the counter is right, and the answers are all equal if and only if no queued task is requeued |
| `TellingApart.RequeueingTellsApart` | level2_service/queue.py:1379-1401 | A task submitted to empty stores and requeued at once is answered differently |
| `TellingApart.FailingInQueueTellsApart` | level2_service/queue.py:1402-1427 | From empty stores: two submissions, the first task failed while queued and retried; memory hands out the second, Redis the first |
| `TellingApart.CleanupTellsApart` | level2_service/queue.py:1247-1344 | From empty stores: a lease that ran out with its task queued, a second lease, a clean-up; memory has no task left, Redis one |
| `TellingApart.WaitingBecomesPartial` | level2_service/queue.py:690-702 | From an empty store: a task waiting for an administrator when the lease is taken is moved to PARTIAL; the freeze held until then and is broken |
| `TellingApart.DeploymentTellsApart` | level2_service/queue.py:1075-1150 | From empty stores: after one deployment, with room for one task, memory refuses the second submission and Redis takes it |
| `LeaseAgreement.LeasesAgree` | level2_service/queue.py:1039-1246 | Acquiring, renewing, binding, releasing and merging duplicates answer alike and leave the same tasks, aliases and lease in both stores |
| `LeaseAgreement.ClaimsUnderLeaseAgree` | level2_service/queue.py:995-1019 | Under a live lease both stores claim the same acceptance task, or none |
| `LeaseAgreement.CleanupAgreesExactly` | level2_service/queue.py:1247-1344 | Cleaning up leaves the same tasks if and only if no lease is live or no maintenance task is left over |
| `AdmissionCounter.StepDrifts` | level2_service/queue.py:913-1455 | Every operation moves the distance between counter and recount by an effect read off the state before it: zero for all but binding (+1 when it queues), releasing, cleaning up and merging (minus the active tasks removed), and reconciling (to zero) |
| `AdmissionCounter.RunDrifts` | level2_service/queue.py:913-1455 | Over any run the counter is off by exactly the sum of those effects |
| `AdmissionCounter.CounterStaysRight` | level2_service/queue.py:2179-2237 | Without those four operations a right counter stays right |
| `AdmissionCounter.DeploymentLosesACount` | level2_service/queue.py:1075-1150 | One complete deployment (acquire, bind, claim, finish, release) leaves the counter at minus one, and a queue capped at one task then admits two |
| `RunnerControl.RunnerControl.Lock` | level2_service/runner.py:1171-1186 | Refused if and only if another owner has a socket left, and then nothing changes; granted it sets the owner and pauses the queue |
| `RunnerControl.RunnerControl.Release` | level2_service/runner.py:1188-1194 | Succeeds exactly for the owner with no operation about; the queue stays paused; a refusal changes nothing |
| `RunnerControl.RunnerControl.DisconnectSession` | level2_service/runner.py:1204-1211 | A disconnected session loses its lock |
| `RunnerControl.RunnerControl.UnregisterSocket` | level2_service/runner.py:1213-1230 | Exactly this socket goes; the last one of a session takes its lock along |
| `RunnerControl.RunnerControl.ResumeQueue` | level2_service/runner.py:1237-1243 | Refused while the device is owned or operated |
| `RunnerControl.RunnerControl.BeginOperation` | level2_service/runner.py:1280-1295 | One operation per role; pauses the queue |
| `RunnerControl.RunnerControl.ReconcileOperation` | level2_service/runner.py:1297-1320 | Report by report: work in progress installs or confirms an operation, an end removes exactly the operation it names, an unknown state changes nothing |
| `RunnerControl.RunnerControl.ClaimNextTask` | level2_service/runner.py:1248-1271 | Decision and claim in one step under the gate, composed with the in-memory store |
| `RunnerControl.RunnerControl.EnterMaintenance` | level2_service/runner.py:1322-1337 | Entered exactly by the lock owner of a paused, idle, operation-free runner |
| `RunnerControl.ClaimIsRefused` | level2_service/runner.py:1248-1271 | A claim is refused if and only if an operation is about, or the queue is paused and a bound live lease is there when the market is closed, or not there when it is open; otherwise it is the store's claim |
| `RunnerControl.OnlyStirringMakesBusy` | level2_service/queue.py:417-426 | While nobody works, a store call that is no claim puts a task to work if and only if it is one of the raw transitions |
| `RunnerControl.EventKeepsGuarded` | level2_service/runner.py:1171-1337 | In every interleaving of sessions, reports, claims and store calls: owned or operated means paused, whoever is inside maintenance owns the lock, and no task is worked on while it is entered or an operation begun in it lasts; broken only by such a transition |
| `RunnerControl.OnlyItsEndEndsAnOperation` | level2_service/runner.py:1297-1320 | A recorded operation goes away if and only if its own end is reported |
| `RunnerControl.HeldMeansQuiet` | level2_service/runner.py:1248-1320 | While it lasts no claim succeeds, the queue cannot be resumed and the lock not released |
| `RunnerControl.QuietUntilItEnds` | level2_service/runner.py:1280-1337 | Over any run until that report: no task is worked on, the queue is paused, every claim comes back empty |
| `RunnerControl.PausedQueueHandsOut` | level2_service/runner.py:1264-1269 | While the market is open a paused queue hands out nothing but the live lease's acceptance task |
| `RunnerControl.ClosedMarketClaimsUnderLock` | level2_service/runner.py:1258-1263 | While it is closed, the administrator's lock does not stop ordinary claims |
| `RunnerLoop.RunOnce` | level2_service/runner.py:1392-1587 | Whatever the device, the network or the disk does, and whatever others do to the store and the runner control between claim and report, the claimed task, if still there, ends in exactly this status: on the snapshot path MARKET_SNAPSHOT if there is one, else FAILED; on the other WAITING_ADMIN if an administrator is needed (and the queue is paused), COMPLETED or PARTIAL for values that could be stored, as they are complete or not, else FAILED. It is gone only as the acceptance task of a deployment that ended meanwhile, no other task is touched, and the deployment freeze is kept |
| `RunnerLoop.OthersLeaveItAlone` | level2_service/queue.py:252-593 | No store call of anybody else touches a running task; only the end of a deployment takes its own task away |
| `RunnerLoop.NoMaintenanceBeside` | level2_service/runner.py:1322-1337 | While the claimed task runs nobody enters maintenance |
| `MarketBroker.MarketDataBroker.Subscribe` | level2_service/market_data.py:351-376 | Replaces the subscription and drops undelivered events of symbols no longer wanted |
| `MarketBroker.MarketDataBroker.Unsubscribe` | level2_service/market_data.py:378-399 | Forgets exactly the cached symbols nobody refers to any more |
| `MarketBroker.MarketDataBroker.Publish` | level2_service/market_data.py:442-450 | Reaches exactly the clients that want the symbol, one queue entry per key |
| `MarketBroker.MarketDataBroker.Refresh` | level2_service/market_data.py:497-511 | Numbers, caches and publishes a snapshot |
| `MarketBroker.MarketDataBroker.NextEvent` | level2_service/market_data.py:452-470 | The loop skips keys without an undelivered event |
| `MarketBroker.UnsubscribeMeans` | level2_service/market_data.py:378-399 | A cached symbol stays, with its number, exactly if another client asks for it |
| `MarketBroker.PublishMeans` | level2_service/market_data.py:442-450 | At every client that wants the symbol the event replaces the undelivered one of its key, and the key is queued only if there was none; at all others nothing changes |
| `MarketBroker.NextMeans` | level2_service/market_data.py:452-470 | The event given is the undelivered one of the first queued key that has one, and the keys up to it are gone |
| `BrokerRuns.ActionKeepsSound` | level2_service/market_data.py:351-512 | Every undelivered event is wanted, is the last one of its key, and its key is in the client's queue |
| `BrokerRuns.PublishedArrives` | level2_service/market_data.py:452-470 | A client with undelivered events gets one without waiting, the latest of its key, and every other one comes closer to the head: nothing is stranded |
| `BrokerRuns.SubscriberSeesIncreasing` | level2_service/market_data.py:351-512 | From any reachable moment, while a client stays subscribed to a symbol, the snapshot numbers it receives strictly increase, whatever other clients do |
| `SortOrders.OrderedIsUnique` | level2_service/market_accounts.py:329-341 | A list of all rows in increasing order is what ordering them gives |
| `SortOrders.DeleteOrders` | level2_service/market_accounts.py:486-495 | Without one row the others keep their order |
| `SortOrders.InsertShows` | level2_service/market_accounts.py:682-702 | Shifting the later rows and filling the gap inserts at the index |
| `SortOrders.OrderedMeans` | level2_service/market_accounts.py:329-341 | Of two listed rows the first has the smaller sort_order, or the same and the smaller id |
| `SortOrders.PlacedMeans` | level2_service/market_accounts.py:642-681 | Indexes before the front and behind the end mean the front and the end |
| `Watchlist.MarketAccountStore.NormalizeItemOrder` | level2_service/market_accounts.py:715-724 | The loop numbers the rows 0..n-1 in their present order |
| `Watchlist.MarketAccountStore.AddSymbol` | level2_service/market_accounts.py:434-484 | Appends to the group, and to the primary group unless it is there; exact error conditions; the user's distinct symbols never exceed the limit |
| `Watchlist.MarketAccountStore.RemoveSymbol` | level2_service/market_accounts.py:486-495 | Deletes one element, all others keep their order |
| `Watchlist.MarketAccountStore.RemoveEverywhere` | level2_service/market_accounts.py:497-517 | Deletes the symbol from every group that has it |
| `Watchlist.MarketAccountStore.ReorderSymbols` | level2_service/market_accounts.py:624-640 | Succeeds exactly for a permutation of the group and then shows it |
| `Watchlist.MarketAccountStore.MoveSymbol` | level2_service/market_accounts.py:642-702 | Splices at the clamped index, within a group or across two, keeps all other orders and the user's symbols |
| `Watchlist.MarketAccountStore.DeleteGroup` | level2_service/market_accounts.py:409-421 | Not the primary and not the last; the others keep their order, renumbered |
| `Watchlist.MarketAccountStore.ReorderGroups` | level2_service/market_accounts.py:423-432 | Succeeds exactly for a permutation of the groups |
| `Replay.SortedIsSorted` | level2_service/research_replay.py:59-66 | The sort key orders the markers, keeps each of them, and is stable |
| `Replay.SortedOrder` | level2_service/research_replay.py:59-66 | Of two sorted markers the first has the smaller index, or the same and is a buy where the other is not, or the same again and is no later; nothing is added or lost |
| `Replay.ExitPriceMeans` | level2_service/research_replay.py:73-104 | The exit price is that of the first sell with a positive price, else the close |
| `Replay.OpenLotsMeans` | level2_service/research_replay.py:68-104 | Shares are left over exactly when a buy comes after the last sell |
| `Replay.FourMarkers` | level2_service/research_replay.py:48-114 | Buys at 10 and 12, a sell at 15 given first, a buy at 11 and a close of 13: sorted as said, cost 3300, profit 1000 |
| `Replay.CalculateReplayPerformance` | level2_service/research_replay.py:48-114 | The running position yields, in profit, the sum over accepted buys of 100 times exit minus entry, the exit being the first accepted sell after the buy, else the positive final close, else nothing; the position left at the end is 100 times the lots still open, or nothing after a forced exit |
| `Macd.EmaStaysBetween` | level2_service/research_replay.py:12-19 | An average stays between any bounds of the values so far |
| `Macd.EmaMeans` | level2_service/research_replay.py:12-19 | (span+1) times an average is twice the value plus (span-1) times the average before it; the first average is the first value |
| `Macd.JumpOf351` | level2_service/research_replay.py:22-45 | Prices 0 and 351 under 12/26/9 give 28, 5.6 and 44.8 |
| `Macd.ShiftChangesNothing` | level2_service/research_replay.py:22-45 | Moving all prices by one amount does not move the indicator |
| `Macd.EmaList` | level2_service/research_replay.py:12-19 | The alpha-weighted list form is the average |
| `Macd.CalculateMacd` | level2_service/research_replay.py:22-45 | The list form: its errors, and the definition of the indicator at every index |
| `Macd.DailyMacd` | level2_service/daily_kline.py:67-87 | The incremental 12/26/9 form is the same indicator |
| `Macd.CurveMacd` | level2_service/direct_market.py:887-927 | The form (2v+(p-1)prev)/(p+1) over forward-filled prices is the same indicator |
| `Macd.ThreeFormsAgree` | level2_service/daily_kline.py:67-87 | On complete prices the three implementations return the same values |
| `Macd.MovingAverage` | level2_service/daily_kline.py:39-48 | The prefix-sum form is the mean of the window, once it is full |

## Left out

- Sockets, TLS, threads and asyncio: a connection is a byte string with an arbitrary schedule of pieces, ends, failures and deadlines; threads are interleaved steps.
- Redis and SQLite themselves: scripts and transactions are single steps, a failed transaction changes nothing, and a Redis key with a time to live is gone when it is over.
- Event streams, capture files and their expiry, and everything a task record carries beyond status, times, symbol and ownership.
- The format check of owner tokens and operation ids: tokens and ids are well formed.
- Tasks in state EXPIRED (only a migration writes it) and the restoring of such tasks; leases without a hash are modelled and proved unreachable.
- queue_position, find_by_symbol of the Redis store with its self-repairing index, and paging of events.
- QueueSimulation.StepMatches: takes new tasks to be stamped with the time of the call that stores them. The service stamps a record when it is made, the memory queue stamps a refreshed task again, and Redis keeps the stamp it was given, so those times may differ by the time between; nothing else in the answers does.
- QueueSimulation.StepMatches: leaves out enqueue, which does not look for an older task of the symbol and is not what the service submits with.
- LeaseAgreement.LeasesAgree: sets lists, index and counter aside; QueueSimulation.StepMatches and SimulationRuns.StoresAnswerAlikeExactly put them back.
- RedisQueue.RedisCleanedUp: leaves aliases as they are, because aliases never lead to or from maintenance tasks (QueueInvariants.StepKeepsSound); the release, renewal, acquisition and clean-up scripts are modelled on values, not as methods over fields.
- InMemoryStreams.InMemoryStreams.RecoverRunning: does not return the recovered tasks in creation order and does not emit their events, because events are not modelled.
- InMemoryStreams.InMemoryStreams.DeduplicateBySymbol: does not restore expired tasks first; there are none.
- InMemoryStreams.InMemoryStreams.Cleanup: does not expire the captures of ordinary tasks, because captures are not modelled.
- RedisStreams.RedisStreamsStore.RefreshTask: takes the client-side read and the script as one step; two clients racing between them are not modelled.
- RedisStreams.RedisStreamsStore.Persist: takes read, check and script as one step, without the roll-back when the event stream cannot be written.
- HXLONG scaling of curve values, symbol, name and market checks of a curve frame, its extension records and the quote pages that follow the rows.
- CurveRows.DecodeField: gives the integer of an HXLONG word, not its scaled decimal.
- CurveRows.DecodeTable: starts from the descriptors and the data segment; header, extension and identity checks around them are left out.
- CorePacket.ValidatedCoreMaterial: hexadecimal and JSON texts are taken as already parsed or malformed, and the table of market prefixes is a parameter.
- FrameReader.ReadFrames: timeouts between frames act through the schedule of the connection, not through a clock of their own.
- SnappyDecoder.DecodePreamble: or-ing disjoint bit ranges is written as addition.
- RunnerControl.RunnerControl.DisconnectSession: does not run the socket callbacks, which only schedule the closing of a connection.
- RunnerLoop.RunOnce: lets others act between the claim and the reading of the pause flag and again before the report, but not enter maintenance, which is refused while the claimed task runs, and not recover or deduplicate, which happens only when the service starts.
- MarketBroker.MarketDataBroker.Subscribe: leaves out the refresh requests collected while the market is closed, with the rest of the polling schedule (intervals, back-off after failures).
- MarketBroker.MarketDataBroker.Refresh: starts where a snapshot was read; the short cuts that answer from the cache change nothing and are left out. Batches publish snapshot by snapshot.
- MarketBroker.MarketDataBroker.NextEvent: waiting for an event is an empty answer.
- Watchlist: group names, monitoring flags and dates, other users' groups (all groups of the model belong to one user), and accounts.
- Replay and Macd work over real numbers: rounding to six digits and the display of numbers are not modelled; the standard deviation of the Bollinger bands is not either. Markers' sort keys are read as numbers.
- Frida scripts, ADB, screen reading, image stitching, HTTP market sources, FastAPI routes, sessions, passwords and the frontend: calls into code outside this repository, or wrappers around what is modelled.
