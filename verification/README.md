# Multicast-Bridge: a verified model

Multicast-Bridge tunnels UDP multicast over unicast. A sender encapsulates each
multicast packet in a 17-byte header, optionally seals it with AES-GCM, groups k
packets and adds n - k Reed-Solomon parity packets; a receiver rebuilds lost
packets, trims, opens and re-emits them. A small control protocol registers
receivers.

This project models that behaviour in Dafny and proves what the parts promise
together. `dafny verify dfyconfig.toml` checks all of it.

## Structure

| file | what it models |
|---|---|
| Words, Header | bitwise operators on words, big-endian bytes, the 17-byte header and its 16-bit FEC field |
| ReedSolomon | the erasure-coding engine by its contract (MDS), with an instance for every k and n = k + 1 |
| ReleaseOrder | what one group lets through, told by packet indices alone |
| FecGroup, FecSource, FecManager | the reception state of a group, its refinement of ReleaseOrder on sender-made packets, and the manager object |
| TableBound | how much the receiver can hold, whatever arrives |
| Crypto | payload encryption by its contract, with an instance |
| Sender, SenderLog, PlainStream | the session worker and the log of everything it sends, with FEC and without |
| Receiver, EndToEnd, Delivery | the receive loop; sender log, lossy channel and receiver together; what each group delivers |
| Conservation, Pacing | whole sessions: everything sent against everything emitted, and a sending rate and jitter under which the channel assumptions hold |
| Wraparound, SumCode, Reuse | which packets are decoded with which over every run, spaced or not; two packets and their sum, byte by byte; a lossless stream corrupted by early reuse |
| Bridge | from the session's queue to the receiver's multicast socket |
| LossWindow, FecLoss | the 64-bit loss window; what it reports on an FEC stream |
| Analyzer, AnalyzerHistory, AnalyzerState, AnalyzerScore, Verdict | the passive FEC simulator, what it remembers, the analyzer object, what it scores, and its verdict against the decoder's |
| Queue, Sessions | the drop-oldest packet queue and the session table |
| Control, Handler, Lookup, HandlerState | control packets and the registration state machine |
| Protocol, SessionLife | what each control packet does, without reference to the handler's own functions; where sessions come from, what keeps them and who can end them |

The proofs come in layers. `ReleaseOrder` is a machine over sets of indices; its
counting theorems (once per k distinct arrivals, exactly once iff k <= m < 2k in
order, floor(n/k) when lossless) involve no bytes. `FecSource.StepRefines` shows
that the byte-level group state of the receiver follows this machine whenever it
is fed packets of one group. `EndToEnd` proves that, if different groups sharing
a number modulo 2048 arrive more than the group timeout apart, every state holds
packets of one group only; `Delivery.GroupDelivery` then transfers the counting
theorems to whole runs with any interleaving of groups, losses, duplicates,
reordering and clean-up ticks, down to the bytes of the emitted payloads.
`Conservation.NothingLostNothingRepeated` adds the groups up: over a whole session
the emitted payloads are, as a multiset, those dequeued. `Pacing.PacedSessionDelivers`
replaces the spacing and timing assumptions by a sending rate, a bound on the jitter
and a bound on the losses, and `Pacing.CleanSession` shows that all hypotheses can
be met together, with and without encryption.

Objects the source updates in place are classes whose methods are proved equal to
value-level step functions (`Step`, `SendStep`, `Update`, `Apply`, `React`, ...);
the theorems are about those functions.

## Assumptions

- The coding library is not part of this model. `ReedSolomon.MDS` states what is
  used of it: n shards of equal length whose first k are the data, any k of which
  determine all; it refuses when all shards are empty, sizes differ or fewer than
  k are present. `ReedSolomon.SumEngineIsMDS` shows the contract can be met.
- AES-GCM, HMAC and key derivation are functions: opening undoes sealing, sealing
  adds 28 bytes with the nonce, derived keys have 32 bytes.
- Each call reads the clock once and the reading is a parameter. Randomness and
  the order of iteration over a map are parameters or non-deterministic choices.
- Both ends have FEC on with the same (k, n), n at most 16 as the configuration
  check demands (`internal/config/config.go:233-244`).

## What turned out narrower than the documentation

- A completed group is forgotten at once, so later parity starts a new lifetime:
  on a lossless in-order channel each data packet is released floor(n/k) times
  (`Delivery.LosslessRepeats`). Exactly once holds iff at least k and fewer than
  2k packets of the group arrive (`Delivery.ExactlyOnceInOrder`).
- A group number that comes round within the timeout meets what its last use left,
  and the slot then holds packets of several groups. `Wraparound.TableFollows` gives
  every slot's contents from the events alone, with no spacing assumed;
  `Wraparound.CrossesIff` says exactly which arrivals are decoded with packets of
  another group, and `Wraparound.UncrossedRunIsSound` that without such an arrival
  only payloads the worker dequeued are emitted. A packet whose index is already
  taken is swallowed as a duplicate.
  `Reuse.LosslessReuseCorrupts` is a run of the sender with nothing lost, duplicated
  or reordered after which the receiver emits a packet nobody sent.
- A group can hold k packets that cannot be decoded: k parity headers without a body.
  Every group holds fewer than k packets in every run iff n < 2k
  (`TableBound.AlwaysShortIff`); at most max(k - 1, n - k) always.
- A number older than the first arrival can cancel a real loss in the loss count
  (`LossWindow.OlderThanFirstMiscounts`); `LossWindow.ExactnessKeptIff` says
  exactly when the count stays right.
- Parity consumes sequence numbers the loss counters never see, so a receiver that
  gets everything a worker sends, in order, reports n - k lost packets per completed
  group followed by more data, and none iff all data fits one group
  (`FecLoss.WorkerStreamReportsLoss`).
- A manager that is switched off passes parity on as data, although a comment at
  `cmd/recv.go:754` says parity is ignored. `EndToEnd.DisabledForwardsParity` says
  when that is noticed, `SumCode.DisabledEmitsGarbage` gives packets for which it is.
- At a distance of exactly 2^31 the shift count of the loss window is negative and
  the receiver stops (`LossWindow.ShiftIsNegativeIff`); at every other distance it
  goes on. The theorems on runs assume distances below 2^31.
- With encryption a receiver that authenticates again with another data port has two
  sessions on one control address, and map order decides which one a lookup finds
  (`Lookup.EncryptedLookupIsAmbiguous`); `Lookup.LookupKeptIff` says exactly when.
- With encryption nobody but the holder of its key can touch a session found by its
  control address, except that a second control address of the same host which rightly
  answers a challenge of its own takes the data address over
  (`SessionLife.OnlyTheKeyHolder`).
- Gaps are marked as lost only upwards: after the number 2^32 - 1 the next gap counts
  from zero, and a number at or below the last one, even one that has wrapped, marks
  nothing (`AnalyzerScore.SkippedIs`).
- Clean-up in the analyzer removes exactly the old groups no report has scored
  (`AnalyzerHistory.CleanUpIff`): without reports at most 101 groups remain after each
  advance, with reports those and every group reported (`AnalyzerHistory.AfterAdvance`),
  without bound (`AnalyzerHistory.MapGrowsForEver`).
- The receive loop tells the analyzer of data only, so the simulator with the stream's
  own (k, n) never scores anything as recovered and calls lost what the decoder
  rebuilds (`Verdict.OwnStreamDisagrees`, `Verdict.OwnCodeNeverRecovers`).
- The manual gives the FEC field seven bits of group number and eight of index
  (`docs/manual_EN.md:38-40`); the code uses eleven and four, and so does the model.

## Model

| member | source | states |
|---|---|---|
| Header.PutUint | internal/data/header.go:29-37 | bytes outside the field keep their value; the field becomes the big-endian image |
| Header.Serialize | internal/data/header.go:29-37 | the fresh 17-byte buffer is the header's image |
| Header.DeserializeImage | internal/data/header.go:29-53 | every header is read back unchanged whatever follows it |
| Header.ImageDeserialize | internal/data/header.go:40-53 | every 17-byte buffer is the image of the header it parses to |
| Header.Layout | internal/data/header.go:29-37 | which bytes of the wire hold which field, all big-endian and the time stamp in two's complement |
| Words.LeadingByte | internal/data/header.go:29-53 | in every byte string read as a number the first byte is the most significant |
| Header.PackIsField | internal/data/session.go:325-328 | for indices below 16 the shifts and ors build flag, group number and index side by side |
| Header.UnpackIsField | cmd/recv.go:736-737 | the receiver's shift and masks read exactly those three parts from any field |
| Header.IndexFitsIff | internal/data/session.go:325-328 | the index survives packing iff it is below 16 |
| ReedSolomon.SumEngineIsMDS | internal/fec/fec.go:37-62 | the contract asked of the engine is met for every k by some code with n = k + 1 |
| ReleaseOrder.PartialGroup | internal/fec/fec.go:119-191 | below k distinct arrivals, in any order and repetition, exactly the arrived data indices are released, once each |
| ReleaseOrder.CompletingArrival | internal/fec/fec.go:141-189 | the k-th distinct arrival completes the release of all k, once each, and the group is forgotten |
| ReleaseOrder.EverReleased | internal/fec/fec.go:119-191 | over any arrivals an index is released iff it arrived or k distinct indices did |
| ReleaseOrder.DistinctArrivals | internal/fec/fec.go:133-189 | without duplicates each data index is released floor(m/k) times, plus one if among the left-over arrivals |
| ReleaseOrder.AnyArrivals | internal/fec/fec.go:119-191 | for any arrivals, repeated or not: a data index is released once per completion of the group, plus once if it is held now |
| ReleaseOrder.OnceIff | internal/fec/fec.go:119-191 | every data index is released exactly once iff the group was completed once and holds no data again |
| ReleaseOrder.InOrderArrivals | internal/fec/fec.go:133-189 | in order, a data index is released floor(m/k) times if m >= k, else iff it arrived |
| ReleaseOrder.ExactlyOnceIff | internal/fec/fec.go:133-189 | in order, every data index is released exactly once iff k <= m < 2k |
| ReleaseOrder.LosslessInOrder | internal/fec/fec.go:133-189 | all n in order: every data index is released floor(n/k) times |
| FecGroup.StepKeepsConsistent | internal/fec/fec.go:94-191 | any packet whatever leaves the group consistent: count equals flags, sent equals received data, fewer than k unless all empty |
| FecGroup.RejectedIff | internal/fec/fec.go:107-122 | rejection iff the index is outside the group or on the wrong side of k; rejects and duplicates release nothing and change no reception |
| FecGroup.ReconstructFailsIff | internal/fec/fec.go:151-166 | decoding is refused iff k receptions with data missing are all empty packets |
| FecGroup.AlignedReconstruct | internal/fec/fec.go:153-166 | after padding the engine refuses iff the longest packet is empty; otherwise the shards present are the packets received |
| FecSource.PaddingAgrees | internal/fec/fec.go:141-162 | whenever decoding starts on sender packets a parity packet is among them, the longest length is the encoder's, and the padded shards are the encoder's shards |
| FecSource.StepRefines | internal/fec/fec.go:66-192 | one packet of a group put into a state of that group releases copies of exactly the indices the index account names and leaves the state unmixed |
| FecSource.FewerThanK | internal/fec/fec.go:151-189 | a state of sender packets always holds fewer than k |
| FecManager.AddKeepsTable | internal/fec/fec.go:66-192 | every packet keeps the whole table consistent and touches no other group number |
| FecManager.GroupState.HasMissingData | internal/fec/fec.go:143-149 | the loop finds a missing data packet iff one is unsent |
| FecManager.GroupState.AlignPackets | internal/fec/fec.go:153-159 | exactly the shorter received packets are zero-extended to the longest length |
| FecManager.GroupState.CollectUnsent | internal/fec/fec.go:168-175 | the unsent shards are appended in index order and everything is marked sent |
| FecManager.GroupState.BufferPacket | internal/fec/fec.go:124-139 | the new group value after buffering a packet, with pass-through marked for data |
| FecManager.GroupState.Deliver | internal/fec/fec.go:141-191 | releases, error and surviving state equal the value-level settlement |
| FecManager.FECManager.constructor | internal/fec/fec.go:38-62 | enabled iff asked for with 0 < k < n and an engine; a timeout of zero or less means two seconds |
| FecManager.FECManager.Locate | internal/fec/fec.go:74-105 | the group found is the stored one unless absent or stale, else a fresh one is stored |
| FecManager.FECManager.AddPacket | internal/fec/fec.go:66-192 | new table, released packets and error equal the value-level step; switched off, the packet itself is returned |
| FecManager.FECManager.CleanUpTimeouts | internal/fec/fec.go:195-221 | exactly the groups older than the timeout are removed |
| TableBound.StepStaysShort | internal/fec/fec.go:94-191 | on non-empty packets decoding never fails and never leaves k packets behind |
| TableBound.AlwaysBounded | internal/fec/fec.go:94-191 | over every run on any datagrams, stored numbers are below 2048, groups are consistent and hold fewer than k packets or at most n - k |
| TableBound.BufferIsBounded | cmd/recv.go:736-737 | at most 2048 max(k - 1, n - k) packets are ever buffered, on any datagrams |
| TableBound.AlwaysShortIff | internal/fec/fec.go:141-165 | every group of every run holds fewer than k packets iff n < 2k |
| TableBound.SubstantialStaysShort | internal/fec/fec.go:141-165 | for any code that also holds while no parity header without a body arrives |
| Wraparound.SlotIff | internal/fec/fec.go:74-191 | a sender packet put into a slot holding packets of any groups: more than the packet is released iff its index is new, k are reached and data is missing, and then it is rebuilt from all the slot holds; an index already taken is swallowed |
| Wraparound.TableFollows | internal/fec/fec.go:74-191 | over every run of events, spaced and ordered or not, the table holds exactly the packets, from exactly the groups, that the account of the events names |
| Wraparound.ArrivalDecodes | internal/fec/fec.go:141-191 | what every arrival of every run releases and emits, from the account of its slot |
| Wraparound.CrossesIff | internal/fec/fec.go:74-191 | an arrival is decoded with packets of another group iff its slot is not stale, its index new, k are reached with data missing, and some held index is another group's |
| Wraparound.UncrossedIsOwn | cmd/recv.go:729-799 | whatever any other arrival makes the receiver emit is a payload of its own group |
| Wraparound.UncrossedRunIsSound | internal/data/session.go:298-429 | in a run with no such arrival everything emitted was dequeued by the worker |
| Wraparound.SpacedNeverCrosses | internal/fec/fec.go:74-92 | while groups with one number arrive more than the timeout apart there is no such arrival |
| Reuse.LeftoverParityCorrupts | internal/fec/fec.go:74-92 | parity left in a slot and the first packet of a later group make the receiver emit the byte-wise sum of the older payloads less the newer one |
| Reuse.LosslessReuseCrosses | internal/data/session.go:427 | 4097 packets of one length, all delivered in order: group 2048 within the timeout of group 0 is emitted together with a packet crossed from three others |
| Reuse.LosslessReuseCorrupts | internal/data/session.go:427 | an instance in which that packet is none of those sent |
| Sender.EncodeFECWithEncoder | internal/fec/fec.go:267-302 | pads every packet to the longest and returns the engine's n - k parity shards, or the error |
| Sender.NextGroupIsMasked | internal/data/session.go:427 | the 11-bit mask is reduction modulo 2048 |
| Sender.SessionWorker.Process | internal/data/session.go:315-428 | one iteration, whose meaning `EveryRunIsFramed` and, with FEC off, `PlainRunIsFramed` state: numbers, seals, frames and sends the payload, and parity when the group is full |
| Sender.SessionWorker.SendParity | internal/data/session.go:384-424 | parity packet i carries the next sequence number, the parity flag, index k + i and shard i behind its own header |
| Sender.SessionWorker.Run | internal/data/session.go:298-429 | the loop's whole output and final registers over any payloads |
| SenderLog.LogIsWire | internal/data/session.go:298-429 | the tagged log adds nothing to what the worker sends |
| SenderLog.FullGroupEncodes | internal/fec/fec.go:267-302 | a full group always encodes, and parity i is shard k + i of its codeword |
| SenderLog.EveryRunIsFramed | internal/data/session.go:317-428 | over every run datagram p has sequence number p plus the numbers burnt by failed encryptions modulo 2^32, its group modulo 2048, its index and its shard, and opens to the payload dequeued |
| SenderLog.SequenceNumbers | internal/data/session.go:317-318 | every datagram's sequence number is group * n + index plus the numbers burnt before it, modulo 2^32 |
| SenderLog.RunFills | internal/data/session.go:376-428 | without failures item j is packet j mod k of group j div k |
| SenderLog.LogIsDequeued | internal/data/session.go:305-342 | the logged payloads are the dequeued ones whose encryption succeeded, in order |
| SenderLog.DatagramsFit | cmd/send.go:336-344 | every datagram from accepted packets plus 28 bytes fits the MTU and no length field is truncated |
| SenderLog.PlainDatagramsFit | cmd/send.go:336-344 | the same with FEC off |
| SenderLog.BoundIsTight | cmd/send.go:336-344 | a parity packet of a full group whose longest payload has m bytes is two headers, m bytes and the encryption overhead long, so it fits the MTU iff m is within the bound: one byte more does not |
| SenderLog.EveryRunIsStamped | internal/data/session.go:344-351 | over every run, FEC or not, each datagram carries the version and the clock reading taken for it, parity its own |
| PlainStream.PlaceIsCount | internal/data/session.go:317-342 | the p-th packet sent is item p plus the encryptions failed before it |
| PlainStream.PlainRunIsFramed | internal/data/session.go:317-376 | over every run with FEC off the datagrams are the items that can be sealed, in order; each has its item's place modulo 2^32 as number, an empty FEC field and the clock reading, and opens to the payload; afterwards the register has counted every item |
| PlainStream.PlainStreamReports | cmd/recv.go:707-727 | a receiver that gets such a wire whole and in order counts every packet and reports as lost exactly the encryptions that failed between the first and the last |
| PlainStream.PlainStreamReportsNothing | cmd/recv.go:707-727 | and no loss at all if none failed |
| Receiver.ReceiveLoop.constructor | cmd/recv.go:643-660 | starts without manager, with empty statistics and an analyzer as configured |
| Receiver.ReceiveLoop.Count | cmd/recv.go:707-727 | a data datagram updates loss window and analyzer; the receiver stops iff the shift count is negative |
| Receiver.ReceiveLoop.EmitReleased | cmd/recv.go:760-799 | the loop emits exactly the trimmed, opened, non-empty payloads |
| Receiver.ReceiveLoop.Decode | cmd/recv.go:729-758 | unpacks the field, strips the outer header of parity and hands the rest to the FEC stage |
| Receiver.ReceiveLoop.HandleDatagram | cmd/recv.go:661-800 | one pass: version check, counting of data only, what the analyzer is told, FEC stage and emission |
| Receiver.ReceiveLoop.Listen | cmd/recv.go:661-800 | the loop over any datagrams: whether it gets through, and if so its loss statistics, its table, everything emitted and everything the analyzer heard |
| Receiver.AcceptedIff | cmd/recv.go:673-703 | a datagram gets past the checks iff it has 17 bytes and its version byte is of major version zero; any other yields nothing, is not counted and leaves the groups alone |
| Receiver.EmitsClearIff | cmd/recv.go:760-799 | without encryption a released packet yields x iff x is not empty and the packet is a header, x as long as the header says, and anything |
| Receiver.EmitsSealedIff | cmd/recv.go:760-799 | with encryption iff that body is a 12-byte nonce and a text that opens to x under it |
| EndToEnd.ReactIsAdd | cmd/recv.go:729-751 | every sender datagram reaches the decoder as its own shard, index and group number modulo 2048 |
| EndToEnd.EmitCopy | cmd/recv.go:760-799 | a released data packet, padded or not, is trimmed and opened to the payload it was made from |
| EndToEnd.SameGeneration | internal/fec/fec.go:74-92 | under spacing, a stored group that is not stale is of the arriving packet's own generation |
| EndToEnd.NoGenerationMix | internal/fec/fec.go:74-105 | over every spaced run each stored state holds packets of one absolute group |
| EndToEnd.EmittedIsOfGroup | cmd/recv.go:729-799 | whatever an event emits is a payload of the very group whose packet arrived |
| EndToEnd.EmittedWasDequeued | internal/data/session.go:298-429 | under loss, duplication and reordering every emitted payload is byte for byte one the worker dequeued |
| EndToEnd.PlainDelivery | cmd/recv.go:753-799 | with FEC off at both ends each arriving datagram yields its payload |
| EndToEnd.DisabledForwardsParity | internal/fec/fec.go:67-69 | a parity datagram yields nothing iff there is no manager, or the shard's length field exceeds it, or what the field leaves does not open or is empty; otherwise what it opens to |
| SumCode.DisabledEmitsGarbage | internal/fec/fec.go:67-69 | with payloads of 171 bytes every parity datagram makes a switched-off manager emit 170 bytes nobody sent |
| Delivery.GroupDelivery | internal/fec/fec.go:66-192 | a group whose packets come within the timeout delivers exactly the payloads of the index account, in that order, over every interleaving |
| Delivery.DeliveredIff | internal/fec/fec.go:119-191 | a payload is delivered iff its own packet or any k distinct packets of the group arrive |
| Delivery.OneLifetime | internal/fec/fec.go:119-191 | before the k-th distinct packet exactly the arrived data is released once; that packet completes all k, once each |
| Delivery.ExactlyOnceIff | internal/fec/fec.go:119-191 | on any channel each data packet is released exactly once iff the group is completed once and no data of it comes again |
| Delivery.ExactlyOnceInOrder | internal/fec/fec.go:133-189 | on an order-preserving loss-only channel each data packet is released exactly once iff k <= m < 2k |
| Delivery.LosslessRepeats | internal/fec/fec.go:133-189 | all n in order: each data packet is released floor(n/k) times |
| Conservation.GroupConserved | internal/fec/fec.go:119-191 | in order and with n < 2k, a group of which k packets (or all its data) arrive delivers each non-empty payload exactly as often as it was sent |
| Conservation.EmittedByGroup | cmd/recv.go:760-799 | over any run what is emitted is, counted per payload, what the groups deliver |
| Conservation.NothingLostNothingRepeated | internal/data/session.go:298-429 | over a whole session the emitted payloads are, as a multiset, the non-empty payloads the worker dequeued and sealed |
| Conservation.LoopIsRun | cmd/recv.go:661-800 | what the receive loop stores and emits on datagrams of the wire is what the run of those events does |
| Pacing.PacedChannel | internal/fec/fec.go:74-92 | if a group is sent and arrives within the timeout and 2048 groups take longer, every arrival pattern the jitter allows, with any loss, repetition and reordering, is spaced and in time |
| Pacing.PacedEmitsWhatWasSent | internal/data/session.go:298-429 | at such a pace every emitted payload is one the worker dequeued |
| Pacing.PacedSessionDelivers | internal/data/session.go:298-429 | at such a pace, in order, with n < 2k, losing at most n - k packets of each full group, whichever they are, and no data of the last, partial one, exactly what was sent is delivered |
| Pacing.CleanSession | internal/data/session.go:298-429 | for each k from 2 to 15 with n = k + 1, with or without encryption, any packets make a session that meets all these hypotheses |
| LossWindow.StreamStats.Record | cmd/recv.go:82-118 | the new counters and bitmap equal the value-level update; the receiver stops iff that is undefined |
| LossWindow.ShiftIsNegativeIff | cmd/recv.go:105-108 | the shift count is negative iff the distance is exactly 2^31 |
| LossWindow.DiffIsExact | cmd/recv.go:92 | within half the number space the wrapped signed difference is the true one |
| LossWindow.BitmapIsArrivals | cmd/recv.go:87-117 | bit i is set iff the number i before the newest arrived, over every run in range |
| LossWindow.LossConservation | cmd/recv.go:91-117 | with nothing older than the first, losses plus credited arrivals are the span from first to newest |
| LossWindow.GuardNeverBlocks | cmd/recv.go:111-113 | the positive-count guard never stops a due decrement |
| LossWindow.LossIsExact | cmd/recv.go:91-117 | with late arrivals inside the window the count is the number that never arrived |
| LossWindow.ExactnessKeptIff | cmd/recv.go:91-117 | for any arrival, when an exact count stays exact |
| LossWindow.OlderThanFirstMiscounts | cmd/recv.go:105-116 | three arrivals after which a missing number is no longer counted |
| FecLoss.WireIsDataStream | internal/data/session.go:386-387 | the numbers counted on a whole wire are those of the data packets alone, k of every n, modulo 2^32 |
| FecLoss.WorkerStreamReportsLoss | cmd/recv.go:707-727 | a receiver that gets a worker's whole wire in order reports n - k lost packets per completed group followed by more data, and none iff all data fits one group |
| Analyzer.AccountingHolds | internal/fec/analyzer.go:79-113 | delivered, recovered and lost add up to k per scored group, over any run with repeated reports |
| Analyzer.FlagsAreHeard | internal/fec/analyzer.go:38-63 | for recent groups the flags are exactly the numbers heard, whatever the order and the gap marks |
| AnalyzerHistory.FlagsAreHeardSince | internal/fec/analyzer.go:38-63 | for every group there is, before or after a wrap, the flags are exactly the numbers heard since it was made |
| AnalyzerHistory.ScoredIsNeverDeleted | internal/fec/analyzer.go:65-77 | a group scored by a report stays in the map for ever |
| AnalyzerHistory.CleanUpIff | internal/fec/analyzer.go:65-77 | when a new highest group is made, a group more than 100 behind is in the map afterwards iff it was scored before |
| AnalyzerHistory.ScoredIffReported | internal/fec/analyzer.go:107-113 | the scored groups in the map are exactly those reports have scored |
| AnalyzerHistory.AfterAdvance | internal/fec/analyzer.go:65-77 | after each advance the map holds the groups reported and otherwise only the last 101 numbers |
| AnalyzerHistory.UnreportedStaysSmall | internal/fec/analyzer.go:65-77 | without reports at most 101 groups remain after each advance |
| AnalyzerHistory.DataOnlyNeverRecovers | internal/fec/analyzer.go:38-104 | a simulator told of data places only never scores a packet as recovered |
| AnalyzerHistory.MapGrowsForEver | internal/fec/analyzer.go:107-113 | for every m some run leaves m groups behind |
| Verdict.DecoderAgrees | internal/fec/analyzer.go:79-104 | fed the same receptions within the timeout, in any order and repetition, lost is the number of data packets of which the decoder itself releases no copy, recovered the number it rebuilds |
| Verdict.SenderTellsApart | internal/data/session.go:325-328 | no packet is a copy of two data packets of a sender's group, so those numbers are well defined |
| Verdict.OwnStreamDisagrees | cmd/recv.go:708-726 | told of the data alone, the analyzer calls every missing data packet lost; the decoder agrees iff fewer than k packets or all the data arrive |
| Verdict.OwnCodeNeverRecovers | cmd/recv.go:708-726 | whatever datagrams of a worker's wire were read, the simulator with the worker's own (k, n) has recovered nothing |
| AnalyzerState.VirtualFEC.FinalizeGroup | internal/fec/analyzer.go:79-104 | one pass over the data flags scores the group as the value-level step does |
| AnalyzerState.VirtualFEC.FinalizeDue | internal/fec/analyzer.go:65-77 | exactly the unscored groups that are due are scored, each once, in map order |
| AnalyzerState.VirtualFEC.RecordPacket | internal/fec/analyzer.go:38-63 | one report is one event of the run the object stands for |
| AnalyzerState.VirtualFEC.FinalizeAll | internal/fec/analyzer.go:107-113 | a report scores all unscored groups and keeps them |
| AnalyzerState.FECAnalyzer.constructor | internal/fec/analyzer.go:146-159 | the four parameter sets simulated, or none when switched off |
| AnalyzerState.FECAnalyzer.RecordPacket | internal/fec/analyzer.go:162-195 | every simulator is told the script for the numbers given: those skipped, which `SkippedIs` determines, as lost, then the received one |
| AnalyzerState.AnalyzerFlags | internal/fec/analyzer.go:162-195 | in each simulator recent flags are the numbers the analyzer was given, all others those given since the group was made, and its totals add up |
| AnalyzerScore.SkippedIs | internal/fec/analyzer.go:178-189 | between two numbers exactly those skipped are marked as lost, in order and once each, if fewer than a thousand; the wrap included |
| AnalyzerScore.SkippedBetween | internal/fec/analyzer.go:178-189 | away from the wrap: q is marked iff it lies strictly between, at a distance of at most a thousand |
| AnalyzerScore.SkippedAtWrap | internal/fec/analyzer.go:178-189 | after the highest number: the numbers from zero up |
| AnalyzerScore.ScriptCovers | internal/fec/analyzer.go:162-195 | over any run of numbers without abnormal jump and wrap the simulators are told of every number from the first to the highest, and of the received ones as received |
| AnalyzerScore.ToldIsHeld | internal/fec/analyzer.go:38-77 | every number told, received or lost, has its group in the map while the group is among the last hundred |
| AnalyzerScore.HeldWasTold | internal/fec/analyzer.go:38-51 | and every group in the map was told of |
| AnalyzerScore.EventScores | internal/fec/analyzer.go:65-113 | every call scores exactly the unscored groups that are due, each once; the three counters grow by the sums of what arrived, was rebuilt and is lost of them |
| AnalyzerScore.AllGroupsHeld | internal/fec/analyzer.go:38-63 | within the history a simulator holds exactly the groups from the first number's to the highest, heard of or not |
| AnalyzerScore.ReportScoresEveryGroup | internal/fec/analyzer.go:79-113 | then after a report `lost` is the sum over all these groups of the data that neither arrived nor can be rebuilt |
| AnalyzerScore.SilentGroupIsLost | internal/fec/analyzer.go:79-104 | in which a group of which nothing arrived counts k |
| AnalyzerScore.ObjectFollows | internal/fec/analyzer.go:162-195 | the simulators of the analyzer object are in such a run |
| Queue.RunRefines | internal/data/queue.go:47-104 | until close the contents are the accepted history after taken plus dropped, within capacity, handed out in order without repetition |
| Queue.Conservation | internal/data/queue.go:47-104 | until close accepted equals dequeued plus dropped plus queued |
| Queue.DropsOldestWhenFull | internal/data/queue.go:55-70 | a packet is dropped only when the queue is full, and it is the oldest |
| Queue.HeadIsNext | internal/data/queue.go:74-90 | the packet handed out next is the one the history names |
| Queue.AfterClose | internal/data/queue.go:93-104 | close discards what was queued and nothing changes afterwards |
| Queue.PacketQueue.constructor | internal/data/queue.go:32-43 | an empty queue whose capacity is at least one |
| Queue.PacketQueue.Enqueue | internal/data/queue.go:47-70 | the new state is the enqueue step; fails iff closed |
| Queue.HandedIsTaken | internal/data/queue.go:74-90 | what dequeuers were handed are the accepted packets at the places taken |
| Queue.PacketQueue.Dequeue | internal/data/queue.go:74-90 | waits iff there is neither a packet nor close; otherwise the closed error or the oldest packet, which leaves |
| Queue.PacketQueue.Close | internal/data/queue.go:93-104 | the new state is the close step |
| Bridge.EmittedWasAccepted | internal/data/queue.go:47-90 | everything the receiver emits was accepted by the session's queue, if no arrival is decoded with packets of another group |
| Bridge.SpacedEmitsAccepted | internal/data/queue.go:47-90 | in particular while groups with one number arrive more than the timeout apart |
| Bridge.AcceptedIsEmitted | internal/data/session.go:298-429 | if the queue drops nothing and is drained and the channel leaves enough of every group, the emitted packets are, as a multiset, the non-empty ones the queue accepted |
| Sessions.ReRegisterHasRoom | internal/data/session.go:92-104 | re-registering a present address never fails for capacity and replaces only its entry |
| Sessions.SessionManager.AddSession | internal/data/session.go:82-136 | the table becomes the value-level one; the old session's queue is closed, the new one starts empty with the capacity asked for (at least one), the others are untouched |
| Sessions.SessionManager.Find | internal/data/session.go:271-281 | some session with the control address, none iff there is none |
| Sessions.SessionManager.Touch | internal/data/session.go:240-251 | one matching session is heard at this time and nothing else changes; `KeptAlive` and `ActiveIsLastHeard` say so of the machine |
| Sessions.SessionManager.RemoveByControl | internal/data/session.go:254-268 | removes one matching session and closes its queue |
| Sessions.SessionManager.CheckTimeouts | internal/data/session.go:221-237 | removes exactly the sessions silent for longer than the timeout and closes their queues |
| Sessions.SessionManager.CloseAll | internal/data/session.go:190-208 | no session remains, none can be added, and every queue is closed |
| Sessions.SessionManager.Broadcast | internal/data/session.go:159-175 | every session's queue takes one enqueue step with the packet |
| Control.BuildPacket | internal/control/protocol.go:70-77 | the fresh buffer is type, 16-bit length and payload |
| Control.ParseBuiltIff | internal/control/protocol.go:41-77 | a built packet parses back iff its type is known and its payload has at most 1021 bytes |
| Control.ParseIff | internal/control/protocol.go:41-67 | a buffer parses to a packet iff it has at most 1024 bytes and starts with the image of that packet, whose type is known; so the 16-bit sum bounding the payload never wraps |
| Control.EncodeRegisterPayload | internal/control/protocol.go:80-95 | the fresh buffer is the registration image |
| Control.DecodeRegisterIff | internal/control/protocol.go:98-119 | a payload decodes to a registration iff it starts with its image and both strings have at most 255 bytes |
| Control.RegisterRoundTripIff | internal/control/protocol.go:80-119 | a registration survives encoding iff both strings have at most 255 bytes |
| Control.EncodeAuthChallengePayload | internal/control/protocol.go:164-169 | the fresh buffer is the challenge image |
| Control.EncodeAuthResponsePayload | internal/control/protocol.go:183-189 | the fresh buffer is the response image |
| Control.EncodeAuthResultPayload | internal/control/protocol.go:204-211 | the fresh buffer is the result image |
| Control.AuthRoundTrips | internal/control/protocol.go:122-223 | acknowledgement and result decode to the fields encoded, challenge and response iff the random value or the proof has 32 bytes |
| Control.DecodeChallengeIff | internal/control/protocol.go:172-180 | a payload decodes to a challenge iff it starts with its image |
| Control.DecodeResponseIff | internal/control/protocol.go:192-201 | the same for a response |
| Control.DecodeResultIff | internal/control/protocol.go:214-223 | the same for a result |
| Control.DecodeAckIff | internal/control/protocol.go:127-137 | the same for an acknowledgement, which may also be a status of one or two bytes with code (0, 0) |
| Handler.TableIsBounded | internal/data/session.go:101-104 | at most the configured number of sessions in every reachable state |
| Handler.LookupIsUnique | cmd/send.go:545-554 | without encryption data and control addresses correspond one to one, so lookup does not depend on map order |
| Handler.OneChallengePerIP | cmd/send.go:494-505 | at most one challenge is pending per IP address in every reachable state |
| Handler.PendingHasOrigin | cmd/send.go:444-450 | a pending challenge is exactly what the step that issued it drew, for that address |
| Handler.SessionHasChallenge | cmd/send.go:577-638 | every authenticated session answers a challenge issued to the same control address at most a minute before, with a key derived from it, and uses it up |
| Handler.AcceptedIff | cmd/send.go:444-639 | over every run a step establishes a session iff its packet, once opened, is the right response to a challenge pending for its address for at most a minute, and there is room or the data address is known |
| Handler.ChallengeUsedOnce | cmd/send.go:577-638 | no two sessions of a run go back to one challenge |
| Handler.TableFromChallenges | cmd/send.go:494-638 | with encryption every session ever in the table was established by a step of the run, from the very challenge that step answered |
| Lookup.LookupKeptIff | internal/data/session.go:271-281 | with encryption a step keeps lookups unambiguous unless its packet is such a response from a control address that has a session under another data address |
| Lookup.EncryptedLookupIsAmbiguous | cmd/send.go:494-638 | four packets after which one control address has two sessions |
| Handler.RepliesAreTruthful | cmd/send.go:545-638 | over every run a registration is acknowledged iff the receiver now has a session, is refused only when the table is full, a refusal changes no session, and k and n are carried as bytes whatever the FEC switch says |
| Handler.ReplyReadsBack | cmd/send.go:524-526 | every reply, sealed or not, opens, parses and decodes at the receiver to the fields sent |
| Handler.WireBytes | internal/control/protocol.go:70-77 | the types, lengths and status bytes of the replies on the wire: 0 for yes, 1 for no |
| Protocol.UnreadIsIgnored | cmd/send.go:457-475 | a packet that does not open or does not parse changes nothing but the challenges that are a minute old, and is not answered |
| Protocol.UnopenedIsIgnored | cmd/send.go:457-465 | in particular any packet from the control address of a keyed session that does not open under its key |
| Protocol.OtherKindsAreIgnored | cmd/send.go:477-664 | packets of the kinds a sender itself sends do nothing |
| Protocol.MalformedIsIgnored | cmd/send.go:477-576 | a registration or a response that does not decode does nothing |
| Protocol.EarlyIsIgnored | cmd/send.go:487-492 | a registration within a second of the last from its IP address does nothing |
| Protocol.PlainRegistration | cmd/send.go:528-563 | without encryption: the session a receiver has is refreshed; otherwise it gets one at its own IP address and the data port declared, unless there is no room; the exact table and reply |
| Protocol.AddedIs | internal/data/session.go:82-136 | a session is added iff there is room or its address is known, replacing what was there; otherwise the table stays |
| Protocol.AddedNever | internal/data/session.go:82-116 | a stopped manager takes nobody; a key of a length AES does not have is refused after the old session is gone |
| Protocol.KeyedRegistration | cmd/send.go:494-526 | with encryption: challenged iff the IP address awaits no answer and there is randomness; the declared port is kept with the challenge |
| Protocol.Answer | cmd/send.go:565-639 | a response uses the pending challenge up; the right one gets a session at the port declared, under the derived key, if there is room; any other is refused |
| Protocol.KeptAlive | cmd/send.go:641-656 | the session found is heard at the packet's time and nothing else changes; who is answered, and with which key |
| Protocol.Left | cmd/send.go:658-661 | exactly the session found is removed |
| Protocol.Ticked | internal/data/session.go:221-237 | exactly the sessions not heard within the timeout are removed |
| SessionLife.ActiveIsLastHeard | internal/data/session.go:240-251 | over every run a session's last activity is the time of the last packet that established it, registered it again or kept it alive |
| SessionLife.TickKeepsIff | internal/data/session.go:221-251 | so a tick leaves a session iff that packet came within the timeout |
| SessionLife.OnlyTheKeyHolder | cmd/send.go:452-475 | with encryption, ticks apart, a keyed session with a control address of its own is refreshed, replaced or removed only by a packet from there that opens under its key, or by another control address of the host rightly answering a challenge |
| SessionLife.TableFromRegistrations | cmd/send.go:528-563 | without encryption every session ever in the table lies at the IP address and declared data port of a registration of the run |
| SessionLife.PendingFromRegistration | cmd/send.go:494-526 | a pending challenge holds the port and address declared in the registration that drew it |
| SessionLife.TableAtDeclaredPort | cmd/send.go:565-639 | with encryption every session lies at the port declared in the registration whose challenge its receiver answered |
| HandlerState.ControlHandler.Packed | cmd/send.go:524-526 | the fresh buffer is the wire image of the reply |
| HandlerState.ControlHandler.Transmit | cmd/send.go:641-656 | the bytes sent, a keep-alive to a keyed session sealed with its key |
| HandlerState.ControlHandler.ForgetOld | cmd/send.go:444-450 | exactly the challenges older than a minute are forgotten |
| HandlerState.ControlHandler.HandleRegister | cmd/send.go:477-563 | new state and replies equal the value-level registration step, which `PlainRegistration`, `KeyedRegistration` and `EarlyIsIgnored` determine |
| HandlerState.ControlHandler.HandleResponse | cmd/send.go:565-639 | new state and replies equal the value-level response step |
| HandlerState.ControlHandler.HandleKeepAlive | cmd/send.go:641-656 | new state and replies equal the value-level keep-alive step |
| HandlerState.ControlHandler.HandlePacket | cmd/send.go:437-664 | one pass of the handler, whatever the bytes, is one step of the machine the theorems are about; what does not open is ignored by `UnopenedIsIgnored` |
| HandlerState.ControlHandler.HandleTick | cmd/send.go:666-688 | one tick of the monitor is one step of that machine |

## Left out

- FecManager.FECManager.AddPacket: packets are values, so the sharing of the read buffer by a passed-through packet is not captured; the log messages about permanent loss are not produced.
- AnalyzerState.VirtualFEC.RecordPacket: group states are values in the map instead of objects behind pointers.
- Analyzer.FlagsAreHeard: says nothing of groups more than 100 behind the highest, which may be deleted and made anew; `AnalyzerHistory.FlagsAreHeardSince` covers them.
- EndToEnd.NoGenerationMix: assumes that groups sharing a number arrive more than the timeout apart; `Wraparound.TableFollows` covers the other runs.
- Delivery.GroupDelivery: covers groups whose packets arrive within the timeout of the first; later ones start a new lifetime.
- LossWindow.StreamStats.Record: latency fields and the wrap of the 64-bit counters are not modelled.
- LossWindow.BitmapIsArrivals: assumes distances below 2^31, as do the other theorems on whole runs of the window.
- Queue.PacketQueue.Dequeue: a dequeuer that must wait returns and looks again; the waking of blocked threads is left out.
- Sessions.SessionManager.AddSession: the worker goroutine and its cancellation are not started or stopped here.
- HandlerState.ControlHandler.HandleResponse: the clock-offset warning computed from the time stamps is only logged by the source and left out.
- The flush of a partial group after the queue closes (internal/data/session.go:432-473): every caller cancels the context before it closes the queue, so the worker returns first.
- Sockets, interface resolution, IGMP, DSCP, PID files, signals, flags, YAML and log files.
- The floating-point percentages and verdict strings of the analyzer's report.
- Receiver registration retries, reconnecting and keep-alive timing.
- Interleavings inside one manager operation: each operation is one step.
- The statistics of internal/logger and most of the configuration checks.
