# Verified model of the collaboration client's algorithms

This project models the hand-written algorithms of the frontend and proves what they are for:

- **Erasure coding** (`frontend/src/lib/erasure/`). `GF256` defines the field of 256 elements from carry-less
  multiplication modulo 0x11d, `GFTables` builds the log and antilog tables by the source's loop and proves the
  table arithmetic equal to the field. `Cauchy` proves that any k rows of the identity-over-Cauchy matrix are
  independent; `LinearAlgebra` and `ReedSolomon` prove the in-place Gauss-Jordan inversion, the encoder and the
  reconstructor; `Sharding` the split and the recombination.
- **The reliable transport ARP** (`frontend/src/lib/arpProtocol.ts`, `arpSession.ts`). `ArpFrames` is the wire
  format, `ArpSpec` the steps of sender and receiver, `ArpProtocol` and `ArpSession` the objects that take those
  steps, `ArpInvariants` what each step keeps, `ArpNetwork` two full-duplex sessions over a network that loses,
  duplicates, delays and reorders frames, `ArpProgress` how they recover even when every frame is lost, `ArpTimeouts`
  the timer and a sender that hears nothing, `ArpCongestion` what acknowledgements do to the window and the
  estimates, `ArpReceiving` a receiver under any frames in any order.
- **The Kademlia node** (`frontend/src/lib/dht/`). `NodeId` is the XOR metric on 20-byte ids, `RoutingTable` the
  buckets, `Lookup` the iterative lookup, `KademliaNode` the request and message handling of one node,
  `DhtNetwork` many nodes and every interleaving of their messages, `DhtLookup` finding a value among them.
- **The drive** (`frontend/src/lib/drive/driveClient.ts`). `Drive` is allocation, shard preparation, hash
  filtering and recovery; `DriveUpload` the offer/store protocol; `DriveDownload` the two fetch waves; `DriveClient`
  a whole download.
- **Two smaller state machines**: `Abr` (the simulcast bitrate ladder) and `Heartbeat` (peer liveness).

`Bits`, `Buffers`, `Endian`, `Sorting` and `Wrappers` hold what these share.

## How the model is built

Objects that the source updates in place are classes (`ArpSender`, `ArpReceiver`, `Session`, `Routing`,
`KademliaNode`, `Codec`, `AbrController`, `HeartbeatTracker`). Each of their methods is proved to take exactly
the step a specification function defines, and the theorems about whole runs are proved of those functions.
Buffers that the source fills or overwrites are arrays. Thrown errors are error values.

Preconditions state what is always so in the source: the tables have been built, a codec was made by its own
constructor, a table or a sender is in a state its own methods leave it in, a layer is named in the options.
Where a property holds only under more than that - an honest manifest, sound options, distinct peers - the
extra condition stands in the lemma about that property, and under "Left out" where it is a restriction.

Clocks, randomness, hashes, decryption, the answers of remote peers and the success of a send are parameters.
Floating-point quantities (windows, round-trip times, bitrates' factors) are reals. One reading of the clock
is used per call. A wire is a set of messages that were sent, any of which may arrive at any later time, any number
of times, or never. In the transport's network, frames can also be lost for good at any moment, as the source does
with those it drops.

## What the proofs found

- `frontend/src/lib/erasure/reedSolomon.ts:143-146` says a zero pivot is not to be expected. It is: reconstruction
  meets one, and has to swap rows, exactly when some data shard is missing below one that is present
  (`ReedSolomon.Codec.Reconstruct`). In general the inversion goes through without a swap exactly when all
  leading blocks of the matrix are nonsingular (`ReedSolomon.InvertMatrix`). The model follows the code.
- `reconstruct` takes the length of the first nonempty shard as the common one, so shards of length 0 that come
  first escape the length check (lines 97-98). What happens then is stated exactly by `ReedSolomon.Codec.Reconstruct`:
  if no data shard is missing, the slots are returned as they are, of unequal lengths; otherwise recovery ends in
  the row-length error - always, because no coefficient of a missing shard is ever zero (`Cauchy.NoZeroCoefficient`).
- The README (line 259) says a file survives any m of its k + m shards going missing, and
  `frontend/src/lib/erasure/reedSolomon.ts:6` that it survives the loss of up to m holders. The first holds of the code
  (`ReedSolomon.Codec.Reconstruct`). The second holds exactly when every shard has its own holder, that is, with
  at least k + m peers (`Drive.HoldersMayBeLost`); in general the round-robin bound decides
  (`DriveUpload.StoredSurvivesLoss`). Neither holds of a single download: its second wave asks for just as many
  shards as it is short of and never for the rest. With d of the first k shards unanswered, it succeeds exactly
  when the next d all answer (`DriveDownload.WithNothingLocal`; `DriveDownload.SufficesMeans` with shards held
  locally). So any one missing shard is tolerated (`DriveDownload.OneLossIsTolerated`), but for all k and all m > 1
  some two missing shards defeat it (`DriveDownload.TwoLossesCanDefeat`).
- The transport stays safe without any bound on the number of segments, but its 32-bit numbers never wrap: from
  the 2^32nd segment on nothing is delivered (`ArpNetwork.NothingDeliveredPastWrap`).
- The header of `frontend/src/lib/dht/kbucket.ts` (lines 4-9) speaks of a candidate slot; there is none, a newcomer to
  a full bucket is dropped.
- One handle can come to sit in two buckets, when a peer is seen under two ids (`Lookup.OneHandleTwice`,
  `Lookup.TwoBuckets`). A lookup keeps its books - nobody listed twice, nobody asked twice - if and only if its
  starting contacts have distinct handles, and one that asks all its candidates asks someone twice exactly when
  they have not (`Lookup.IterativeFind`). They do whenever the table lists no handle twice
  (`Lookup.FairWhenHandlesAreUnique`), and so while ids are derived from handles (`Lookup.HonestIsFair`).
- A heartbeat peer can become stale, unhealthy and dead without `onUnhealthy` ever being called. A peer with no
  ping outstanding whose channel is closed always does (`Heartbeat.BlockedPeerDiesUnreported`). With at least two
  miss counts that mean unhealthy, as by default, a silent peer that dies was reported if and only if one of the
  first ticks, as many as it was short of one miss before dead, found its channel writable
  (`Heartbeat.ReportedBeforeDeath`). With only one such count, even a peer that was pinged in time can slip through
  (`Heartbeat.NarrowThresholdsMissReport`), and so it can when a late tick gives its ping up as too old
  (`Heartbeat.ForgottenPingMissesReport`). `Heartbeat.ReportedExactly` decides for all thresholds and times, and
  `Heartbeat.QuietPeerIsUnanswered` carries all this over to runs of the tracker.
- With a decrease factor of 1 or more, the bitrate controller switches off a layer that is not at its floor
  (`Abr.CutBreaksShape`) - on the first tick that finds too little bandwidth, if its top layer starts above its
  floor (`Abr.FirstCutBreaksShape`).

## Model

| member | source | states |
|---|---|---|
| GF256.TimesIsCarrylessProduct | frontend/src/lib/erasure/gf256.ts:3-8 | the field product is the carry-less product of the two bytes, reduced modulo 0x11d |
| GF256.PolyModIsRemainder | frontend/src/lib/erasure/gf256.ts:10-11 | that reduction yields a byte which differs from its argument by a polynomial multiple of 0x11d, and is the only such byte |
| GF256.AddLaws | frontend/src/lib/erasure/gf256.ts:46-48 | bytes under exclusive-or are a commutative group in which every byte is its own inverse |
| GF256.TimesLaws | frontend/src/lib/erasure/gf256.ts:30-33 | multiplication is commutative, associative, has a unit and a zero, and distributes over exclusive-or |
| GF256.NoZeroDivisors | frontend/src/lib/erasure/gf256.ts:30-33 | a product is zero only if a factor is |
| GF256.GeneratorIsPrimitive | frontend/src/lib/erasure/gf256.ts:8-8 | of the first 255 powers of 2, the last is 1 and no other |
| GF256.LogExists | frontend/src/lib/erasure/gf256.ts:16-23 | every nonzero byte is exactly one of the first 255 powers of 2 |
| GFTables.BuildTables | frontend/src/lib/erasure/gf256.ts:16-28 | the table loop fills EXP with the powers of the generator, mirrored, and LOG with their exponents |
| GFTables.TablesAreInverse | frontend/src/lib/erasure/gf256.ts:13-28 | EXP and LOG undo one another on the 255 nonzero elements, in both directions |
| GFTables.Tables.Mul | frontend/src/lib/erasure/gf256.ts:30-33 | table multiplication is field multiplication, for all bytes |
| GFTables.Tables.Div | frontend/src/lib/erasure/gf256.ts:35-39 | fails exactly on a zero divisor; otherwise the quotient times the divisor is the dividend |
| GFTables.Tables.Inv | frontend/src/lib/erasure/gf256.ts:41-44 | fails exactly on zero; otherwise yields the multiplicative inverse |
| GFTables.MulAddRow | frontend/src/lib/erasure/gf256.ts:53-61 | adds the multiple of one row to another in place, or changes nothing and reports unequal lengths |
| Cauchy.CauchyKernel | frontend/src/lib/erasure/reedSolomon.ts:15-16 | a square Cauchy system with distinct nodes has only the zero solution |
| Cauchy.ChosenRowsIndependent | frontend/src/lib/erasure/reedSolomon.ts:8-13 | any k distinct rows of the encoding matrix have a trivial kernel, for all k, m with k + m <= 256 |
| LinearAlgebra.LeftInverseUndoes | frontend/src/lib/erasure/reedSolomon.ts:121-122 | applying a left inverse after a matrix gives every vector back |
| LinearAlgebra.NoPivotIsSingular | frontend/src/lib/erasure/reedSolomon.ts:157-163 | a column without a pivot means the original matrix has a nonzero kernel vector |
| LinearAlgebra.EliminateKeeps | frontend/src/lib/erasure/reedSolomon.ts:177-185 | a row elimination done to both matrices keeps inverse times original equal to the reduced matrix, and the kernel |
| LinearAlgebra.SwapKeeps | frontend/src/lib/erasure/reedSolomon.ts:164-165 | so does a swap of two rows |
| LinearAlgebra.ScaleKeeps | frontend/src/lib/erasure/reedSolomon.ts:167-175 | so does normalising the pivot row |
| ReedSolomon.InvertMatrix | frontend/src/lib/erasure/reedSolomon.ts:147-188 | returns a left inverse exactly when the matrix has a trivial kernel, reports a singular matrix exactly when it has not, and goes through without a swap exactly when every leading block is nonsingular |
| LinearAlgebra.NonsingularIsOnto | frontend/src/lib/erasure/reedSolomon.ts:10-13 | a matrix with a trivial kernel reaches every vector |
| LinearAlgebra.LeftInverseIsRight | frontend/src/lib/erasure/reedSolomon.ts:114-122 | what the elimination returns inverts from both sides |
| Cauchy.SwapIsNeeded | frontend/src/lib/erasure/reedSolomon.ts:143-166 | the chosen rows, in ascending order, have only nonsingular leading blocks if and only if no data row is missing below a chosen one |
| Cauchy.NoZeroCoefficient | frontend/src/lib/erasure/reedSolomon.ts:130-136 | the row of the inverse for a missing data shard has no zero entry |
| ReedSolomon.SwapWhenShardMissing | frontend/src/lib/erasure/reedSolomon.ts:114-119 | the rows reconstruction starts from have only nonsingular leading blocks if and only if no data shard is missing below a present one |
| ReedSolomon.FindPivot | frontend/src/lib/erasure/reedSolomon.ts:157-163 | the first row from the diagonal down with a nonzero entry in the column, if there is one |
| ReedSolomon.Pivot | frontend/src/lib/erasure/reedSolomon.ts:167-185 | with a nonzero pivot, turns one more column into a unit column in place, keeps those already done, and keeps what the leading rows kill |
| ReedSolomon.BuildEncodingMatrix | frontend/src/lib/erasure/reedSolomon.ts:24-42 | the rows are the unit vectors followed by rows of inverses of x_i + y_j |
| Cauchy.EncodingEntries | frontend/src/lib/erasure/reedSolomon.ts:24-42 | the first k rows are the unit matrix, and every other entry, at row i and column j, times i + j is 1 |
| ReedSolomon.ParityOfOne | frontend/src/lib/erasure/reedSolomon.ts:58-79 | where only data shard j holds anything, parity shard i times i + j gives it back |
| ReedSolomon.ShardsAdd | frontend/src/lib/erasure/reedSolomon.ts:58-79 | the shards of a sum of data are the sums of the shards, byte by byte |
| ReedSolomon.DataShard | frontend/src/lib/erasure/reedSolomon.ts:8-9 | the code is systematic: code word shard j is data shard j for j < k |
| ReedSolomon.Codec.Make | frontend/src/lib/erasure/reedSolomon.ts:49-56 | the size checks in their order, and a well-formed codec when they pass |
| ReedSolomon.Codec.Encode | frontend/src/lib/erasure/reedSolomon.ts:58-79 | wrong count and unequal lengths are rejected; otherwise exactly the m parity shards of the code word |
| ReedSolomon.Codec.Reconstruct | frontend/src/lib/erasure/reedSolomon.ts:81-140 | the exact result for any slots: each error has its exact case; with no data slot empty the slots as they are; otherwise the only data whose code word has the first k present shards - hence the encoded data whenever the present slots come from it; the swap branch is taken if and only if some data shard is missing below a present one |
| ReedSolomon.RecoveredFits | frontend/src/lib/erasure/reedSolomon.ts:114-139 | present data shards and recomputed ones together have the chosen shards in their code word, whatever bytes those are |
| ReedSolomon.FitsIsUnique | frontend/src/lib/erasure/reedSolomon.ts:3-6 | any k shards belong to the code word of at most one data |
| Sharding.SplitIntoShards | frontend/src/lib/erasure/reedSolomon.ts:190-203 | k shards of equal length that concatenate to the data followed by zeros only |
| Sharding.RecombineShards | frontend/src/lib/erasure/reedSolomon.ts:205-212 | equal shards are joined and cut to the original length, so recombining a split gives the data back; unequal ones give exactly what copying them over one another gives, or fail where one does not fit |
| Drive.AllocateShards | frontend/src/lib/drive/driveClient.ts:72-82 | shard i goes to the peer at place i modulo the size of the pool, or to nobody when there are no peers |
| Drive.SharesAreBalanced | frontend/src/lib/drive/driveClient.ts:72-82 | no set of peers holds more shards than the rounded-up average for each place it has in the pool, peers listed twice included |
| Drive.OnePlaceEach | frontend/src/lib/drive/driveClient.ts:72-82 | in a pool without repeats that is its number of peers |
| Drive.HoldersMayBeLost | frontend/src/lib/erasure/reedSolomon.ts:3-6 | any m holders may be lost at the cost of at most m shards if and only if there are at least k + m of them |
| Drive.PrepareShards | frontend/src/lib/drive/driveClient.ts:97-112 | the k + m shards are the code word of the padded sealed bytes and the manifest lists their hashes, their count and the sealed size |
| Drive.DropTampered | frontend/src/lib/drive/driveClient.ts:344-354 | exactly the slots whose hash is not the listed one are emptied |
| Drive.Finalize | frontend/src/lib/drive/driveClient.ts:339-365 | for any manifest and any collected bytes: exactly the tampered slots are emptied, wrong sizes fail in their order, and nothing is returned without k matching slots or of another size than listed; for a truthful manifest the exact sealed bytes are recovered and opened with k intact slots, and the download fails with fewer |
| Drive.LossLeavesEnough | frontend/src/lib/drive/driveClient.ts:72-82 | losing holders within the redundancy leaves at least k intact shards |
| DriveUpload.RunKeepsInv | frontend/src/lib/drive/driveClient.ts:120-194 | in every run of the offer/store protocol a fulfilled task means its shard is in its holder's store with its hash, and both counters are exactly the numbers of accepted and of stored tasks |
| DriveUpload.AllCanBeStored | frontend/src/lib/drive/driveClient.ts:120-194 | at any moment of any run in which no task was given up so far, the upload can still end with every shard accepted, stored and held by its holder, if the holders answer |
| DriveUpload.PublishedMeansHeld | frontend/src/lib/drive/driveClient.ts:196-202 | an upload that publishes has at least k distinct shards with their allocated holders |
| DriveUpload.StoredSurvivesLoss | frontend/src/lib/drive/driveClient.ts:122-202 | after any loss of holders within the redundancy, k intact shards of a fully stored file are left |
| DriveUpload.RecoverAfterLoss | frontend/src/lib/drive/driveClient.ts:97-202 | what was prepared, fully stored and then hit by a loss within the redundancy opens to exactly the sealed bytes, if all that is left is collected |
| DriveClient.DownloadFile | frontend/src/lib/drive/driveClient.ts:246-365 | for any manifest and any sources: fails when the two waves do not bring k shards, and opens exactly the sealed bytes when they do and what they bring is genuine |
| DriveClient.DownloadAfterLoss | frontend/src/lib/drive/driveClient.ts:97-365 | end to end: a fully stored file, downloaded from the holders left after any loss, opens to exactly the sealed bytes if and only if the two waves suffice, and otherwise fails for want of shards |
| DriveDownload.CollectShards | frontend/src/lib/drive/driveClient.ts:246-308 | collects k shards if and only if, of the absent shards in order, the first (as many as are lacking) leave some number unanswered and that many after them all answer; every collected byte string came from the local store or a fetch |
| DriveDownload.SufficesMeans | frontend/src/lib/drive/driveClient.ts:264-308 | that condition on the shards is the outcome of the two waves, with any shards held locally |
| DriveDownload.WithNothingLocal | frontend/src/lib/drive/driveClient.ts:264-308 | with d of the first k unanswered and nothing local: success if and only if d is at most m and the next d all answer |
| DriveDownload.AllReachableIsFound | frontend/src/lib/drive/driveClient.ts:297-304 | with every shard within reach and at least k of them, the download finds k |
| DriveDownload.OneLossIsTolerated | frontend/src/lib/drive/driveClient.ts:264-304 | for all k and m, whichever single shard is missing, the two waves still collect k |
| DriveDownload.TwoLossesCanDefeat | frontend/src/lib/drive/driveClient.ts:297-308 | for all k and all m > 1, two missing shards make the download fail although k others are within reach |
| ArpFrames.DecodeEncoded | frontend/src/lib/arpProtocol.ts:47-69 | decoding an encoded frame gives the frame back, less what its field widths cannot hold |
| ArpFrames.EncodeDecoded | frontend/src/lib/arpProtocol.ts:47-69 | every buffer with a whole header is the encoding of what it decodes to |
| ArpFrames.EncodeFrame | frontend/src/lib/arpProtocol.ts:47-58 | the buffer written field by field is the big-endian layout |
| ArpFrames.HeaderLayout | frontend/src/lib/arpProtocol.ts:47-58 | byte 0 is the kind, bytes 1-4 the sequence number, 5-8 the acknowledgement and 9-10 the window, most significant byte first and cut to those widths; the payload follows |
| ArpProtocol.ArpSender.Enqueue | frontend/src/lib/arpProtocol.ts:149-153 | takes the specified step and emits its frames; an empty payload changes nothing |
| ArpProtocol.ArpSender.Pump | frontend/src/lib/arpProtocol.ts:156-182 | moves exactly as many queued payloads as both windows allow into flight, in order, under consecutive numbers |
| ArpProtocol.ArpSender.OnAck | frontend/src/lib/arpProtocol.ts:185-226 | takes the specified step for every acknowledgement: new, duplicate, third duplicate, stale; the rows of `ArpCongestion` say what that does |
| ArpProtocol.ArpSender.AcceptCumulativeAck | frontend/src/lib/arpProtocol.ts:228-246 | removes exactly the segments below the acknowledgement, counts them and their bytes, and samples only those sent once |
| ArpProtocol.ArpSender.FastRetransmit | frontend/src/lib/arpProtocol.ts:248-256 | halves the threshold, inflates the window and resends the one missing segment, if it is in flight |
| ArpProtocol.ArpSender.Tick | frontend/src/lib/arpProtocol.ts:258-279 | takes the specified step, about which `ArpTimeouts.TimerFires` says when it retransmits and what |
| ArpProtocol.ArpSender.UpdateRtt | frontend/src/lib/arpProtocol.ts:306-321 | the smoothed estimate, its deviation and the clamped timeout |
| ArpProtocol.ArpReceiver.OnData | frontend/src/lib/arpProtocol.ts:371-419 | takes the specified step, about which `ArpReceiving.ReceivingHas` says what any number of them, in any order, amount to |
| ArpProtocol.ArpReceiver.Drain | frontend/src/lib/arpProtocol.ts:387-393 | delivers the contiguous buffered run and removes just that from the buffer |
| ArpReceiving.ReceivingHas | frontend/src/lib/arpProtocol.ts:371-399 | after any data frames in any order, each any number of times: the next expected number is the least that never came, everything below it is delivered in order, exactly the numbers above it that came are buffered, each with the payload that came first, and the bytes delivered are counted |
| ArpReceiving.AcknowledgesFirstGap | frontend/src/lib/arpProtocol.ts:401-419 | the acknowledgement sent for a frame names the least number that never came |
| ArpReceiving.DuplicatesAreLate | frontend/src/lib/arpProtocol.ts:382-383 | the duplicates counted are the frames that came when everything up to their number had come before |
| ArpReceiving.AnyOrderDelivers | frontend/src/lib/arpProtocol.ts:371-399 | once every segment of a message has come, in any order and however often, the message is delivered, the buffer is empty and all of it is acknowledged |
| ArpCongestion.PumpFills | frontend/src/lib/arpProtocol.ts:156-182 | after sending, nothing waits or the smaller window is full, and nothing went beyond it; what went out is the front of the queue, under consecutive numbers, noted with its time |
| ArpCongestion.AckGrows | frontend/src/lib/arpProtocol.ts:200-205 | outside fast recovery, an acknowledgement of n more segments adds n to the window below the threshold, and n divided by the window above it |
| ArpCongestion.SlowStart | frontend/src/lib/arpProtocol.ts:200-202 | below the threshold, any acknowledgements of what is in flight add exactly what they acknowledge in all |
| ArpCongestion.WindowDoubles | frontend/src/lib/arpProtocol.ts:200-202 | so acknowledging a full window doubles it |
| ArpCongestion.CongestionAvoidance | frontend/src/lib/arpProtocol.ts:203-206 | above it, acknowledging up to a window w, by however many acknowledgements, adds between the n-th part of w + 1 and that of w, for n segments |
| ArpCongestion.OneMorePerWindow | frontend/src/lib/arpProtocol.ts:203-206 | so a full window acknowledged adds at most one segment and at least half of one |
| ArpCongestion.AckSetsWindow | frontend/src/lib/arpProtocol.ts:186-186 | every acknowledgement sets the receive window, and zero stands for 256 |
| ArpCongestion.AckFills | frontend/src/lib/arpProtocol.ts:185-210 | after a new acknowledgement, nothing waits or the smaller window is full |
| ArpCongestion.ThirdDuplicateResends | frontend/src/lib/arpProtocol.ts:212-225 | while an acknowledgement repeats, the third repetition and no other resends the segment it asks for, halves the threshold and sets the window three above it |
| ArpCongestion.HalvedIsHalf | frontend/src/lib/arpProtocol.ts:248-253 | half the window is rounded down, and at least two |
| ArpCongestion.RecoveryEnds | frontend/src/lib/arpProtocol.ts:190-206 | the first new acknowledgement ends fast recovery at the halved window, grown by its part |
| ArpCongestion.EstimatesConverge | frontend/src/lib/arpProtocol.ts:306-321 | with samples that stay the same, the estimate approaches them by an eighth of the distance each time, and the deviation has a closed form that decays |
| ArpCongestion.TimeoutFollows | frontend/src/lib/arpProtocol.ts:317-320 | the timeout is the estimate and four deviations, between 100 ms and 30 s |
| ArpCongestion.FromFirstSample | frontend/src/lib/arpProtocol.ts:306-321 | from the first sample on, a steady round trip is the estimate at once and half of it the deviation, which shrinks by a quarter each time; the timeout follows in closed form |
| ArpCongestion.AckMeasures | frontend/src/lib/arpProtocol.ts:228-246 | an acknowledgement of segments sent once, at one time, takes one sample of that round trip for each; one of retransmitted segments leaves the estimates and the timeout alone |
| ArpInvariants.EnqueueKeeps | frontend/src/lib/arpProtocol.ts:149-182 | enqueueing keeps window, byte accounting, congestion and timing invariants, and every frame carries the payload of its number |
| ArpInvariants.AckKeeps | frontend/src/lib/arpProtocol.ts:185-256 | so does every acknowledgement that lies in the window |
| ArpInvariants.TickKeeps | frontend/src/lib/arpProtocol.ts:258-304 | so does every timer tick |
| ArpInvariants.SampleKeepsRange | frontend/src/lib/arpProtocol.ts:306-321 | samples between 0 and M keep the estimate and the deviation between 0 and M, and the timeout between its limits |
| ArpSession.SegmentsCover | frontend/src/lib/arpSession.ts:80-90 | the segments of a message are nonempty, at most 1024 bytes long and concatenate to the message |
| ArpSession.SegmentsAreFull | frontend/src/lib/arpSession.ts:83-84 | segment i starts at byte 1024 i, and all but the last have 1024 bytes |
| ArpSession.Session.Send | frontend/src/lib/arpSession.ts:80-90 | hands every segment to the sender in order |
| ArpSession.Session.Handle | frontend/src/lib/arpSession.ts:136-145 | data goes to the receiver, acknowledgements to the sender, anything else is ignored |
| ArpSession.FrameArrives | frontend/src/lib/arpSession.ts:136-145 | what an encoded frame does: data is received, acknowledged and handed on; an acknowledgement reaches the sender with its number and its window; other kinds do nothing |
| ArpNetwork.StepKeepsInv | frontend/src/lib/arpSession.ts:80-145 | every step of either session, whatever frame arrives, keeps the invariant of both directions |
| ArpNetwork.DeliveredIsPrefix | frontend/src/lib/arpProtocol.ts:371-399 | in every run over the lossy network, the bytes delivered are a prefix of the bytes the other side sent, in both directions |
| ArpNetwork.WindowsAgree | frontend/src/lib/arpProtocol.ts:149-182 | in every run, in flight is exactly highestAck to nextSeq, the receiver's next expected number lies in that range, at most 256 segments are in flight and at most 255 are buffered |
| ArpNetwork.SendersStaySane | frontend/src/lib/arpProtocol.ts:185-321 | in every run, bytes sent are bytes acknowledged plus bytes in flight, retransmissions are fast ones plus timeouts, and the congestion state and timer stay within their limits |
| ArpNetwork.NothingDeliveredPastWrap | frontend/src/lib/arpProtocol.ts:51-52 | what is delivered never goes beyond the segment before number 2^32 |
| ArpNetwork.NoConfusion | frontend/src/lib/arpProtocol.ts:371-399 | a segment whose truncated number falls in the receiver's window is the segment with that number |
| ArpProgress.NeverStalls | frontend/src/lib/arpProtocol.ts:156-182 | in every run, nothing is queued while nothing is in flight |
| ArpProgress.LossIsRecovered | frontend/src/lib/arpProtocol.ts:156-304 | at any moment of any run, every frame may be lost for good: the sessions can still go on, without further loss, so that both sides receive all they were sent before, as long as the sequence numbers last |
| ArpProgress.TimerResends | frontend/src/lib/arpProtocol.ts:260-279 | while some segment in flight was last sent a timeout ago or more, the timer puts one more such segment on the wire |
| ArpTimeouts.TimerFires | frontend/src/lib/arpProtocol.ts:260-304 | the timer retransmits if and only if some segment in flight was last sent one timeout ago or more, and otherwise changes nothing; it resends a segment sent least recently, marks it, and cuts the window to one segment and the threshold to half the window |
| ArpTimeouts.TimeoutCollapses | frontend/src/lib/arpProtocol.ts:270-278 | every timeout leaves a window of one segment with something in flight |
| ArpTimeouts.NoFreshData | frontend/src/lib/arpProtocol.ts:156-158 | from then on, until an acknowledgement, no new segment is sent, whatever the application enqueues |
| ArpTimeouts.NoStarvation | frontend/src/lib/arpProtocol.ts:260-284 | the next n timeouts, n being the number in flight, retransmit n different segments, every one of them |
| ArpTimeouts.Backoff | frontend/src/lib/arpProtocol.ts:276-277 | after j timeouts the timer is its value doubled j times, capped at 30 seconds |
| NodeId.DistanceIsMetric | frontend/src/lib/dht/nodeId.ts:49-56 | XOR distance is symmetric, zero exactly between equal ids, and obeys the triangle inequality |
| NodeId.XorDistance | frontend/src/lib/dht/nodeId.ts:51-56 | the bytes of the distance spell the exclusive-or of the two numbers; unequal lengths fail |
| NodeId.CompareDistance | frontend/src/lib/dht/nodeId.ts:58-67 | the sign of the byte comparison is the numeric order; unequal lengths fail |
| NodeId.BucketIndex | frontend/src/lib/dht/nodeId.ts:69-92 | -1 exactly for equal ids, otherwise the position of the highest bit of the distance |
| NodeId.HexRoundTrip | frontend/src/lib/dht/nodeId.ts:36-47 | reading a hexadecimal string back gives the bytes it was written from |
| NodeId.HexSpells | frontend/src/lib/dht/nodeId.ts:36-40 | every byte is written as two lower-case hexadecimal digits, the high one first |
| NodeId.HexInjective | frontend/src/lib/dht/nodeId.ts:36-40 | different ids have different hexadecimal keys |
| RoutingTable.Routing.Observe | frontend/src/lib/dht/kbucket.ts:31-54 | refreshes a known contact, admits a new one if there is room, and says which; the table stays healthy |
| RoutingTable.Routing.Remove | frontend/src/lib/dht/kbucket.ts:56-65 | takes out the contact that `RoutingTable.RemovesFirst` describes, and reports truthfully whether there was one |
| RoutingTable.RemovesFirst | frontend/src/lib/dht/kbucket.ts:56-65 | of all contacts, bucket by bucket, the first under the handle is gone and nobody else; nothing changes if there is none |
| RoutingTable.SeenLast | frontend/src/lib/dht/kbucket.ts:39-53 | a known contact, under its id or its handle, moves to the tail of its bucket with the new time and is otherwise as it was; a new one comes last if there is room; the others keep their places |
| RoutingTable.LeastRecentFirst | frontend/src/lib/dht/kbucket.ts:1-2 | with sightings in the order of their times, every bucket always lists its contacts by when they were last seen |
| RoutingTable.Routing.ClosestTo | frontend/src/lib/dht/kbucket.ts:77-87 | the prefix of the whole table sorted by distance |
| RoutingTable.TableStaysHealthy | frontend/src/lib/dht/kbucket.ts:33-65 | after any operations, every contact is in the bucket of its distance, buckets hold at most k and no two contacts of a bucket share a handle or an id |
| RoutingTable.IdsAreUnique | frontend/src/lib/dht/kbucket.ts:33-54 | an id occurs at most once in the whole table, and never the node's own |
| RoutingTable.ObserveDisplacesNobody | frontend/src/lib/dht/kbucket.ts:39-53 | after a sighting the table knows exactly who it knew before, and the newcomer if it was admitted |
| RoutingTable.ClosestAreNearest | frontend/src/lib/dht/kbucket.ts:77-87 | the returned contacts are strictly ascending in distance and every other contact of the table is farther |
| Lookup.IterativeFind | frontend/src/lib/dht/kademlia.ts:180-252 | at most 16 rounds of at most alpha requests; each round learns exactly the contacts under new handles that its replies list, the first under each handle, as they are listed; the candidates are the starting contacts and those learned, which the table was told of in turn, whatever other handlers do to it meanwhile; it ends for exactly one of four stated reasons; unless it found a value or ran out of rounds the result is the nearest of all candidates in ascending order; nobody is listed or asked twice if and only if the starting handles are distinct |
| Lookup.NextBatch | frontend/src/lib/dht/kademlia.ts:196-200 | the batch is the nearest candidates not asked yet: exactly its handles are newly marked, and whoever stays unasked is farther |
| Lookup.AskRound | frontend/src/lib/dht/kademlia.ts:229-248 | stops at the first answer with a value; takes from the replies it read, in their order, the first contact under each new handle and no other; without a value every contact of every reply is known afterwards |
| Lookup.TakenInTurn | frontend/src/lib/dht/kademlia.ts:237-246 | reading one reply after another takes the contacts that reading them all at once would |
| Lookup.ReadIsReplies | frontend/src/lib/dht/kademlia.ts:229-241 | what a round reads comes from the replies of the nodes asked, and without a value it is all of it |
| Lookup.LearnedWasReplied | frontend/src/lib/dht/kademlia.ts:237-246 | every contact learned in a round stands, as it is, in a reply of a node asked in that round |
| Lookup.LearnedArePlaced | frontend/src/lib/dht/kademlia.ts:242-243 | every contact learned has an entry in the table afterwards, unless its bucket is full |
| Lookup.NothingWasAnswered | frontend/src/lib/dht/kademlia.ts:229-248 | a lookup that found nothing got no bytes from anyone it asked |
| Lookup.FirstIsFound | frontend/src/lib/dht/kademlia.ts:233-236 | a lookup that found a value found the first nonempty bytes that anyone answered with |
| Lookup.FairWhenHandlesAreUnique | frontend/src/lib/dht/kademlia.ts:184-190 | a table that lists no handle twice starts every lookup from distinct handles, whatever the count; the converse holds for lookups over the whole table |
| Lookup.UnfairRepeats | frontend/src/lib/dht/kademlia.ts:184-248 | distinct candidates can only come from distinct starting handles, and a lookup that asked everyone asked nobody twice if and only if they were distinct |
| Lookup.OneHandleTwice | frontend/src/lib/dht/kbucket.ts:33-54 | after sightings of one handle under two ids of different buckets, the table lists it twice and lookups start unfairly |
| Lookup.TwoBuckets | frontend/src/lib/dht/kbucket.ts:33-54 | such sightings exist for every handle |
| Lookup.HonestIsFair | frontend/src/lib/dht/kademlia.ts:69-98 | with ids derived from handles, it always does |
| Lookup.RequestsAreBounded | frontend/src/lib/dht/kademlia.ts:196-200 | rounds of at most alpha requests make at most that many times alpha in all |
| KademliaNode.KademliaNode.HandleMessage | frontend/src/lib/dht/kademlia.ts:288-359 | the sender is recorded unless it is the node itself or its id is malformed; each request gets its answer, with the nearest contacts to its target; what storing, finding and answering amount to is stated by the next rows |
| KademliaNode.LastStoreIsFound | frontend/src/lib/dht/kademlia.ts:316-340 | after any messages, a request for a key is answered with the bytes last stored under it, or with what the node had at first if none were |
| KademliaNode.StoreThenFind | frontend/src/lib/dht/kademlia.ts:316-348 | a store is confirmed exactly if its bytes are found from then on; undecodable bytes are refused and change nothing; other keys are found as before |
| KademliaNode.ExchangeCompletes | frontend/src/lib/dht/kademlia.ts:255-359 | the answer of any node fulfils the request it answers, once; the requester is then as before, but for the number it used |
| KademliaNode.OtherAnswersEndTheWait | frontend/src/lib/dht/kademlia.ts:267-275 | an answer of another kind does not fulfil a request, but ends the wait for it |
| KademliaNode.KademliaNode.Request | frontend/src/lib/dht/kademlia.ts:255-286 | a fresh id waits for a response, unless the transport refused the message |
| DhtNetwork.StepKeepsInv | frontend/src/lib/dht/kademlia.ts:255-359 | every step of every node keeps stores, messages, pending requests and results honest |
| DhtNetwork.ReturnedWasStored | frontend/src/lib/dht/kademlia.ts:136-145 | in every interleaving, a value returned for a key had been passed to `store` for that key by some node |
| DhtLookup.FindValue | frontend/src/lib/dht/kademlia.ts:136-145 | the node's own copy, or else what the lookup found; in any run with honest answers that is a value some node had stored for the key |
| DhtNetwork.FulfilledAtMostOnce | frontend/src/lib/dht/kademlia.ts:266-277 | a request is fulfilled at most once, only for the node that made it, and not while it is still pending |
| DhtNetwork.ConfirmedMeansKept | frontend/src/lib/dht/kademlia.ts:104-131 | in every interleaving, a positive confirmation comes from a node that was asked for that store by the node it goes to, and that has a value under the key |
| DhtNetwork.PublishedCanBeFound | frontend/src/lib/dht/kademlia.ts:104-145 | at any moment of any run, any node can publish any nonempty value with any node, and any node can then find it there |
| Abr.Tighten | frontend/src/lib/abr/abr.ts:242-262 | the in-place loop cuts or switches off the highest active layer as specified |
| Abr.Loosen | frontend/src/lib/abr/abr.ts:264-284 | the in-place loops switch on the lowest inactive layer or raise the highest that can be raised |
| Abr.CutIsGreatest | frontend/src/lib/abr/abr.ts:250-250 | a cut leaves the greatest whole bitrate that is at the floor or within the factor of the old one |
| Abr.RaisedIsGreatest | frontend/src/lib/abr/abr.ts:278-278 | a raise gives the greatest that is within the ceiling and one step of the old one |
| Abr.TightensHighest | frontend/src/lib/abr/abr.ts:242-262 | tightening cuts the highest active layer and no other, or switches it off if a cut would not lower it and there is one below |
| Abr.LoosensLowestOff | frontend/src/lib/abr/abr.ts:267-273 | loosening switches on the lowest layer that is off |
| Abr.RaisesHighest | frontend/src/lib/abr/abr.ts:274-282 | with all of them on, it raises the highest one below its ceiling and no other |
| Abr.TightenKeeps | frontend/src/lib/abr/abr.ts:242-262 | tightening keeps targets within bounds, the active layers a nonempty prefix and the others at their floors; it holds exactly when only the lowest layer is left, at its floor |
| Abr.LoosenKeeps | frontend/src/lib/abr/abr.ts:264-284 | loosening keeps the same, and holds exactly when all layers are active at their ceilings |
| Abr.TightenSheds | frontend/src/lib/abr/abr.ts:242-262 | every cut lowers the total the active layers may send |
| Abr.TightensToBottom | frontend/src/lib/abr/abr.ts:242-262 | repeated tightening reaches the lowest layer at its floor and stays there |
| Abr.LoosensToTop | frontend/src/lib/abr/abr.ts:264-284 | repeated loosening reaches all layers at their ceilings and stays there |
| Abr.CutBreaksShape | frontend/src/lib/abr/abr.ts:250-258 | for any decrease factor: exactly when one cut switches off a layer above its floor |
| Abr.FirstCutBreaksShape | frontend/src/lib/abr/abr.ts:242-262 | with a factor of 1 or more it happens on the first tick without bandwidth |
| Abr.AbrController.Tick | frontend/src/lib/abr/abr.ts:170-240 | one tick takes the specified step, also when the reading fails or the sender refuses the parameters; the next rows say what it decides |
| Abr.LossIsShare | frontend/src/lib/abr/abr.ts:183-193 | a tick counts unless its change was refused; the loss it reports, times the packets counted since the last reading, is 100 times those lost; it is 0 when nothing new was lost, and from 0 to 100 always |
| Abr.DecidedByCounters | frontend/src/lib/abr/abr.ts:198-210 | the ladder is tightened if the share lost reaches the high mark or the estimate is below what is asked for, else loosened if the share lost is below the low mark and a fifth of what is asked for is to spare or there is no estimate, else left alone |
| Abr.QuietTickLoosens | frontend/src/lib/abr/abr.ts:198-210 | with no new loss, and no estimate or a fifth to spare, a tick never asks for less, and asks for more unless the ladder is at the top or the sender refuses |
| Abr.ReportedChange | frontend/src/lib/abr/abr.ts:195-236 | the reported change tells truly whether the ladder moved, and which way |
| Abr.LadderStaysInShape | frontend/src/lib/abr/abr.ts:170-240 | after any ticks, with sound options, the ladder is in shape |
| Abr.SenderStaysInStep | frontend/src/lib/abr/abr.ts:212-240 | after any ticks, with any options, the bitrate and activity of the sender's parameters for a layer are those of the snapshot |
| Abr.PushKeepsOthers | frontend/src/lib/abr/abr.ts:213-222 | parameters that name no layer stay as they are, and all keep their names |
| Abr.OverloadSheds | frontend/src/lib/abr/abr.ts:193-210 | when the packets lost reach the high mark as a share of those counted, or more is asked for than the estimate, nothing is ever raised: the ladder gives way strictly unless it is at the bottom or the parameters were refused |
| Heartbeat.HeartbeatTracker.Tick | frontend/src/lib/resilience/heartbeat.ts:148-190 | every peer takes the specified step whatever the order, and exactly the peers that turned unhealthy unreported are reported, once each |
| Heartbeat.HeartbeatTracker.HandlePong | frontend/src/lib/resilience/heartbeat.ts:115-132 | accepted exactly for a pending ping of a known peer, which then recovers; otherwise nothing changes |
| Heartbeat.PingIsAwaited | frontend/src/lib/resilience/heartbeat.ts:148-179 | whatever else happens, a ping is waited for until the first tick later than deadAfterMisses + 1 intervals after it, and no longer |
| Heartbeat.RoundTripIsMeasured | frontend/src/lib/resilience/heartbeat.ts:115-132 | the pong of a ping that is waited for restores the peer to health, and the round trip is the time since that ping, or 0 if the clock went back; a pong that comes too late changes nothing |
| Heartbeat.AddRevives | frontend/src/lib/resilience/heartbeat.ts:80-98 | adding a peer again revives it, and leaves its pings and its estimate |
| Heartbeat.Classes | frontend/src/lib/resilience/heartbeat.ts:192-197 | with the thresholds in order, the class of a number of misses is the last threshold it reaches |
| Heartbeat.StatusIsClass | frontend/src/lib/resilience/heartbeat.ts:192-197 | status is the class of the misses in every run if and only if no threshold is zero |
| Heartbeat.ReportedOnce | frontend/src/lib/resilience/heartbeat.ts:167-170 | between recoveries the owner is told at most once, and the flag says whether it was |
| Heartbeat.PendingIsBounded | frontend/src/lib/resilience/heartbeat.ts:154-160 | with ticks at least an interval apart, at most deadAfterMisses + 2 pings are pending |
| Heartbeat.SilentPeerDies | frontend/src/lib/resilience/heartbeat.ts:148-197 | a fresh peer that never answers has n - 1 misses after n ticks, hence goes stale, unhealthy and dead at exact ticks with exactly one report |
| Heartbeat.ReportedExactly | frontend/src/lib/resilience/heartbeat.ts:148-190 | for all thresholds and tick times: a silent peer is reported if and only if some tick that finds a ping still waited for counts its misses to an unhealthy number |
| Heartbeat.ReportedBeforeDeath | frontend/src/lib/resilience/heartbeat.ts:148-197 | with two unhealthy counts or more and some ping always waited for, a silent peer that dies was reported if and only if one of its first ticks, as many as it was short of one miss before dead, found the channel writable |
| Heartbeat.ForgottenPingMissesReport | frontend/src/lib/resilience/heartbeat.ts:157-160 | once its only ping is given up as too old, a blocked peer is never reported |
| Heartbeat.QuietPeerIsUnanswered | frontend/src/lib/resilience/heartbeat.ts:80-190 | in any run of the tracker, until it next recovers a peer goes through exactly these states and is reported exactly as often |
| Heartbeat.NarrowThresholdsMissReport | frontend/src/lib/resilience/heartbeat.ts:148-197 | with one unhealthy count, a peer that is pinged and then blocked turns unhealthy and dead unreported |
| Heartbeat.BlockedPeerDiesUnreported | frontend/src/lib/resilience/heartbeat.ts:174-188 | any peer with nothing pending and a closed channel gets one miss a tick, and is never reported |

## Left out

- React components, hooks and pages, the WebRTC wiring, the visualizer's packet log, snapshots and subscriber callbacks.
- The SFU, the Express and socket.io routes, mail, TURN, metrics, and the small maps around them (login tokens, room modes, peers): they would only add easy members.
- WebCrypto: hashing is an injective parameter, opening sealed bytes a parameter; signatures, key wrapping and base64 are not modelled.
- Real timers and asynchronous scheduling: every handler runs to completion, as it does in the source between awaits; the interleavings of handlers are modelled, and within one lookup the answers are a parameter by round and handle.
- Rounding of floating-point numbers, and precision beyond 2^53.
- InvertMatrix: a row is a value inside an array of rows, so the sharing of row objects after a swap by reference is not captured.
- Tables.Mul: the tables are an immutable value once `BuildTables` has filled them; the module-level arrays are not modelled as mutable state.
- ArpSender.OnAck: requires that the segments in flight carry consecutive numbers, which every step keeps from the start; the insertion-ordered map of segments is a sequence.
- ArpSender.Tick: one reading of the clock serves the whole call, where the source reads it again for the retransmission.
- LossIsRecovered: says that recovery stays possible once frames get through again, not how soon on a network that goes on losing some.
- DownloadAfterLoss: takes holders to be honest and file ids unique.
- HoldersMayBeLost: takes the peers of the pool to be distinct; with repeats, `Drive.SharesAreBalanced` still gives the bound.
- CollectShards: what a fetch of one shard brings is a parameter, so the DHT attempt, the broadcast and its timeout are one step.
- IterativeFind: contacts carry well-formed 20-byte ids; the sorting of the library is modelled as a stable insertion sort; what the asked nodes answer and what other handlers do to the table is given by round.
- HexRoundTrip: only hexadecimal digits are read back; what `parseInt` makes of other characters is not modelled.
- FairWhenHandlesAreUnique: for a lookup that starts from part of a table that lists a handle twice, whether it is fair depends on the target.
- PublishedCanBeFound: says that the value can be found from the node it was stored with, not that a lookup always gets there.
- AllCanBeStored: says that the upload can end so while the holders answer, not that it must.
- WindowDoubles: is about what is in flight when the first acknowledgement comes; a round that crosses the threshold is covered by `ArpCongestion.AckGrows` alone.
- ReturnedWasStored: nodes are honest and handles distinct; keys are ids, whose hexadecimal spelling is covered by `NodeId.HexRoundTrip`.
- Convergence of the lookup to the globally nearest nodes: it does not hold, since a lookup gives up after one round without news.
- TightenSheds: the total is strictly lower only with positive floors, as in the default ladder.
- SenderStaysInStep: the initial encodings are taken to have been applied.
- LadderStaysInShape: options must bound each initial bitrate by its floor and ceiling, name layers differently and have a decrease factor below 1 and a positive step.
- ReportedBeforeDeath: takes some ping to be waited for at every tick after the first, as it is when the ticks come at the set interval (`Heartbeat.SoonIsSteady`); without that, `Heartbeat.ReportedExactly` decides.
- The observed outbound rate of the bitrate snapshot, which decides nothing.
- Reading the statistics report apart into counters (`frontend/src/lib/abr/abr.ts:286-338`) and answering pings (`frontend/src/lib/resilience/heartbeat.ts:106-111`).
- Re-entrant calls from the `onUnhealthy` callback.
- XorDistance: only the distance function of `nodeId.ts` is modelled; `kbucket.ts` and `kademlia.ts` carry private copies of the same loops.
