# sosistab in Dafny

A verified model of the parts of sosistab whose correctness rests on several
structures, or several machines, agreeing with each other.

- **The reliable stream.** An endpoint is modelled twice: as a value with one pure
  function per event (`Connection`, over `Flight` and `Reordering`), and as mutable
  objects with the redundant structures of the implementation (`Tracking.Inflight`,
  `Reordering.Reorderer`, `ConnectionVars.ConnVars`), whose methods are proved to do
  what the functions say. `Stream` puts two endpoints on a network that loses,
  duplicates, delays and reorders messages in both directions, and proves an invariant
  of every step. `StreamTheorems` draws the consequences for whole runs, for either
  endpoint; `Recovery` proves that from every reachable state, after losing everything
  under way, the stream can still be delivered and acknowledged completely; `WindowEdge`
  drives a run to the edge of the receiver's window. `StreamHistory` derives each part of
  an endpoint's state from the steps so far: how often every segment was retransmitted and
  when it times out, whether the endpoint is alive, and what it owes its peer.
- **Datagrams with forward error correction.** `FecFraming`, `FecEncoding`,
  `FecDecoding` and `OutOfBand` model padding, encoding, decoding and the caches;
  `Sending`, `Replay` and `Receiving` the two ends of a session. `FecTheorems` proves
  what one parity frame gives back, and exactly when a run that could be rebuilt is
  missed; `Datagrams` proves authenticity and at-most-once delivery for whole runs, and
  `RunCompleteness` exactly which arrivals bring a missing frame back; `SenderHistory`
  proves what goes out, and that the sender never gets stuck.
  Reed-Solomon is represented by one hypothesis, that any k of the k + m shards
  determine all (`AnyKRecover`); `ErasureCode` shows that XOR parity meets it for one
  parity shard.
- **Smaller structures.** `MinimumQueue`, `ReceiveLoss`, `Sessions` and `RecentlySeen`
  are each proved against a plain specification: a sequence, a partition of the frame
  numbers, the history of claims, and the history of accepted messages.

Objects whose methods update fields are classes with the same fields. Their methods
are specified by functions on values, and the properties are proved of those functions.
Hash-map order, cache eviction, the clock, the RTO, the congestion window and the
number of parity shards asked for are arbitrary inputs. Time is counted in microseconds.

Where the code does less than its comments say, the model follows the code:

- A run that could be rebuilt may be missed, in two ways. First, only a parity frame leads
  to an attempt: a data frame that makes up the number of frames needed does not
  (src/session/machine.rs:197-202), so a run whose parity overtakes its data is not
  rebuilt until another parity frame of it arrives. `ParityOvertakesData` shows such a
  run. Second, if no data frame of the run is cached and the hash map yields the marker
  255 before the parity shards, the empty marker fixes the shard length to zero
  (src/session/machine.rs:235 and 254, src/fec/decoder.rs:43). `MarkerFirstLosesARun`
  shows such an attempt. `ComesBackIff` states over what arrived when a frame comes back;
  `EnoughShardsSuffice` states when an attempt succeeds, whatever the caches dropped.
- Two sessions may claim one client address. The index then leads to the later one, and
  the earlier session's moving away removes the later one's entry
  (src/listener/table.rs:70-74). `StepStaysCompleteIff` states exactly which events, be it
  a claim of an old session, a claim that starts one, or the end of one, leave every held
  address leading to its holder; `SharedAddressIsLost` shows a session that cannot be found.
- The span of unacknowledged segments is gated before a write, not after: selective
  acknowledgements may let the next seqno run ahead, and a segment can reach the peer one
  past its window and be turned away. `WindowBound` proves that it is never further ahead;
  `OnePastTheWindow` shows a run that gets there. It is retransmitted like any other.

## Model

| member | source | states |
|---|---|---|
| Reordering.Reorderer.Insert | src/mux/structs.rs:48-59 | Buffers a segment inside the window of 20000, reports an old one as accepted, rejects one beyond: accepted iff at most 20000 past the next expected |
| Reordering.Reorderer.Take | src/mux/structs.rs:60-71 | Releases what `Ready` says and leaves what `Taken` says |
| Reordering.TakenReleasesTheRun | src/mux/structs.rs:60-71 | What is released is the longest run of held segments from `min`, in order; exactly those leave the buffer, and the next expected one is not held |
| Reordering.TakenKeepsReceived | src/mux/structs.rs:60-71 | Releasing neither accepts nor forgets a segment |
| Flight.AckedAllRemovesTheListed | src/mux/relconn/inflight.rs:119-164 | Acknowledging a list removes exactly the listed segments; all others keep everything but their timeout, which only moves forward to the present and only for segments not known lost |
| Flight.OnlyOlderAreBroughtForward | src/mux/relconn/inflight.rs:135-159 | A timeout is brought forward only for a never-retransmitted segment, by the acknowledgement of a newer one that would have timed out at least twice the RTT spread after it |
| Flight.DueAfterAcksIff | src/mux/relconn/inflight.rs:135-159 | Exactly which segments are due once a list has been acknowledged: those due anyway, and the never-retransmitted ones that an acknowledged newer one overtakes by twice the RTT spread |
| Flight.AckedAllConserves | src/mux/relconn/inflight.rs:119-164 | Delivered plus unacknowledged never changes under acknowledgement, whatever is acknowledged twice or unknown |
| Flight.AckedAllConcat | src/mux/relconn/connvars.rs:167-183 | Cumulative and selective acknowledgement in a row equal one acknowledgement of both lists |
| Flight.LostAfterAcks | src/mux/relconn/connvars.rs:173-176 | Of the lost segments, exactly those not acknowledged stay lost |
| RtoIndex.Detach | src/mux/relconn/inflight.rs:235-243 | Removing a segment under its own timeout leaves an exact index of the other segments, with no empty bucket |
| RtoIndex.Attach | src/mux/relconn/inflight.rs:184-204 | Filing a new segment keeps the index exact: every segment not known lost is listed once, under its own timeout |
| RtoIndex.Refile | src/mux/relconn/inflight.rs:214-233 | Changing a segment and filing it anew, or dropping it when it is lost, keeps the index exact |
| RtoIndex.FirstBucketExpiresFirst | src/mux/relconn/inflight.rs:207-212 | The head of the first bucket is a segment with the least timeout of all that are not known lost |
| Tracking.Inflight.Insert | src/mux/relconn/inflight.rs:184-204 | Adds a segment with its timeout and delivery count; segments, index and lost counter stay in step |
| Tracking.Inflight.MarkAcked | src/mux/relconn/inflight.rs:119-164 | Does what `Acked` says and reports whether the segment was there; the structures stay in step and no subtraction underflows |
| Tracking.Inflight.MarkAckedLt | src/mux/relconn/inflight.rs:101-116 | Acknowledges exactly the keys below the bound, in order, and returns how many there were |
| Tracking.Inflight.MarkLost | src/mux/relconn/inflight.rs:167-181 | Flags the segment and takes it out of the timeout index; the lost counter goes up only if it was not flagged before |
| Tracking.Inflight.Retransmit | src/mux/relconn/inflight.rs:214-233 | Returns the payload and does what `Resent` says, whose timeouts `SegmentLife` tells; the unconditional decrement of the lost counter is right when the segment is known lost |
| Tracking.Inflight.RemoveRto | src/mux/relconn/inflight.rs:235-243 | Removes a seqno from one bucket, and the bucket if it becomes empty |
| Tracking.Inflight.FirstRto | src/mux/relconn/inflight.rs:207-212 | The next timeout is that of a segment that expires first, and there is none iff every segment is known lost |
| Tracking.Inflight.InflightCount | src/mux/relconn/inflight.rs:55-58 | The difference does not underflow and counts the segments not known lost |
| Tracking.Inflight.LastMinusFirst | src/mux/relconn/inflight.rs:60-73 | The distance between the least and the greatest unacknowledged seqno, zero when there is none |
| Tracking.NextToAck | src/mux/relconn/inflight.rs:101-116 | While a list is being acknowledged the next segment is still there and meets what acknowledging it needs |
| Connection.AckReleasesExactly | src/mux/relconn/connvars.rs:158-187 | An acknowledgement leaves exactly the segments at or above its mark that it does not list, and counts each removed one once |
| Connection.AckedCount | src/mux/relconn/connvars.rs:165-183 | The delivery counter rises by the number of distinct segments that the acknowledgement finds |
| Connection.ProcessStaysSound | src/mux/relconn/connvars.rs:92-263 | Every enabled event keeps the local invariant: delivered plus unacked equals the next seqno, one congestion report per delivery, at most 32 pending acks under an armed timer, lost segments past their timeout, `lowest_unseen` equal to the reorderer's `min` |
| Connection.ProcessKeepsUnackedBound | src/mux/relconn/connvars.rs:301-309 | Under windows of at most `bound`, no event takes the unacknowledged segments above `bound + 1` |
| ConnectionVars.ConnVars.constructor | src/mux/relconn/connvars.rs:47-76 | A new endpoint is empty and its books agree |
| ConnectionVars.ConnVars.Wakeups | src/mux/relconn/connvars.rs:300-301 | With anything unacknowledged there is a timeout filed in the index or a retransmission ready; the timeout is the earliest filed and that of a segment not known lost, and if none is filed everything is known lost |
| ConnectionVars.ConnVars.NextEvent | src/mux/relconn/connvars.rs:279-381 | Exactly which event the biased race picks: a due timeout, the least lost segment, the acknowledgement, a failure, the packet at hand, the write at hand, the end of writes, or none; what it picks is enabled, and with anything unacknowledged and none picked a timeout is filed and all lie ahead |
| ConnectionVars.ConnVars.CanWriteNew | src/mux/relconn/connvars.rs:301-307 | The write gate read off the counters equals the gate stated on the segments |
| ConnectionVars.ConnVars.ProcessOne | src/mux/relconn/connvars.rs:92-263 | One event on the mutable endpoint has exactly the outcome of `Process`; both books of lost segments agree afterwards, and no assertion on the way fails |
| ConnectionVars.ConnVars.OnRetransmit | src/mux/relconn/connvars.rs:102-116 | Retransmitting a lost seqno always finds its segment, and both books drop it |
| ConnectionVars.ConnVars.OnRto | src/mux/relconn/connvars.rs:122-154 | A timeout enters the segment in both books of lost segments |
| ConnectionVars.ConnVars.OnAckTimer | src/mux/relconn/connvars.rs:233-253 | Sends the pending seqnos in order with the cumulative mark, and clears them and the timer |
| ConnectionVars.ConnVars.OnWrite | src/mux/relconn/connvars.rs:214-232 | Sends the payload under the next free seqno and tracks it |
| ConnectionVars.ConnVars.OnClosing | src/mux/relconn/connvars.rs:117-121 | Sets the closing flag, and dies at once iff nothing is unacknowledged |
| ConnectionVars.ConnVars.OnData | src/mux/relconn/connvars.rs:188-213 | Arms the timer, notes an accepted seqno, and hands over what the reorderer releases |
| ConnectionVars.ConnVars.OnAck | src/mux/relconn/connvars.rs:158-187 | An undecodable list changes nothing and ends the connection; otherwise the books agree after the cumulative part and after the selective part, and the outcome is that of the pure function |
| ConnectionVars.ConnVars.MarkSelective | src/mux/relconn/connvars.rs:175-183 | The selective loop acknowledges the list in order, with one congestion report per segment found |
| ConnectionVars.ConnVars.MarkCumulative | src/mux/relconn/connvars.rs:167-174 | The cumulative part acknowledges everything below the mark, reports each once, and both books drop the same lost segments |
| Stream.WriteWithinWindow | src/mux/relconn/connvars.rs:303-307 | Under the write gate the next seqno is at most one past the receiver's window |
| Stream.ReleasedUpTo | src/mux/relconn/connvars.rs:158-204 | The receiver has released everything below the sender's least unacknowledged seqno |
| Stream.AckKeepsFlow | src/mux/relconn/connvars.rs:158-187 | However stale or repeated, an acknowledgement from the network releases only segments the peer has accepted |
| Stream.DataKeepsFlow | src/mux/relconn/connvars.rs:188-213 | Accepting a segment from the network keeps the output equal to the first `min` writes, byte for byte |
| Stream.WriteKeepsFlow | src/mux/relconn/connvars.rs:214-232 | A new write keeps both directions' invariant, including the window bound |
| Stream.RetransmitKeepsFlow | src/mux/relconn/connvars.rs:102-116 | What a retransmission puts on the wire is what was written at that seqno |
| Stream.ReleasesNextWrites | src/mux/relconn/connvars.rs:201-206 | The buffers released together are the next writes, in order |
| Stream.StepKeepsInv | src/mux/relconn/connvars.rs:92-263 | Every step of either endpoint or of the network keeps the invariant of the two-endpoint system |
| Stream.RunKeepsInv | src/mux/relconn/connvars.rs:92-263 | The invariant holds after every run |
| StreamTheorems.StreamIsExact | src/mux/relconn/connvars.rs:188-232 | In every reachable state the bytes read are exactly the first `lowest_unseen` buffers written by the peer, in both directions |
| StreamTheorems.WindowBound | src/mux/structs.rs:48-59 | No data under way in either direction is more than 20001 past its receiver's `min`, and the receiver turns one away iff it is exactly there |
| WindowEdge.OnePastTheWindow | src/mux/relconn/connvars.rs:303-307 | A run that gets there: a segment at `min` + 20001 is on the wire, its receiver turns it away, and the unacknowledged segments span twice the gate |
| StreamTheorems.NothingIsForgotten | src/mux/relconn/connvars.rs:158-204 | Every seqno that either endpoint wrote is unacknowledged there, or buffered or released at its peer |
| StreamTheorems.GracefulCloseIsComplete | src/mux/relconn/connvars.rs:266-271 | When the closing check ends the connection of either endpoint, its peer has read every byte it wrote |
| StreamTheorems.CountersAreConserved | src/mux/relconn/inflight/calc.rs:80-85 | In every run, for either endpoint: delivered plus unacked equals the number of writes, congestion reports equal deliveries, and pending acks never exceed 32 and always have a timer |
| StreamTheorems.InFlightBound | src/mux/relconn/connvars.rs:300-307 | In every run in which the windows of an endpoint are at most `bound`, at most `bound + 1` of its segments are unacknowledged or in flight |
| StreamTheorems.BurstsAreFinite | src/mux/relconn/connvars.rs:372-380 | With the clock standing still, timeouts and retransmissions of an endpoint in a row number at most twice the due timeouts plus the lost segments |
| StreamTheorems.RtoShrinksBurst | src/mux/relconn/connvars.rs:122-154 | A timeout strictly lowers that measure |
| StreamTheorems.RetransmitShrinksBurst | src/mux/relconn/connvars.rs:102-116 | A retransmission with a positive RTO strictly lowers that measure |
| StreamTheorems.AllAckedMeansAllDelivered | src/mux/relconn/connvars.rs:266-271 | When nothing is unacknowledged the peer's output is everything written |
| Recovery.WorkOffBurst | src/mux/relconn/connvars.rs:372-380 | Due timeouts and ready retransmissions can be worked off at a standing clock, changing nothing else |
| Recovery.ResendOldest | src/mux/relconn/connvars.rs:300-332 | A live sender can always bring its oldest unacknowledged segment back onto the wire |
| Recovery.ReceiveAndAck | src/mux/relconn/connvars.rs:188-253 | A live receiver can always take in a segment no newer than expected and acknowledge past it |
| Recovery.TakeAck | src/mux/relconn/connvars.rs:158-187 | Taking that acknowledgement strictly shrinks what is unacknowledged |
| Recovery.Round | src/mux/relconn/connvars.rs:92-263 | One retransmission, delivery and acknowledgement are always possible and leave less unacknowledged |
| Recovery.LossNeverWedgesTheStream | src/mux/relconn/connvars.rs:92-263 | From every reachable state with both ends alive, after all messages under way are lost, for every window, RTT spread and positive RTO, and for either direction, a continuation delivers everything written and empties the sender |
| StreamHistory.SeenFrom | src/mux/relconn/connvars.rs:92-263 | Every run is a run with the two endpoints exchanged, so what follows holds of either |
| StreamHistory.WrittenTold | src/mux/relconn/connvars.rs:214-232 | Seqnos are given to the writes of the history in order, without gaps |
| StreamHistory.SegmentLife | src/mux/relconn/inflight.rs:167-233 | In every run each unacknowledged segment carries what was written at its seqno, was sent when it was written, has been retransmitted as often as it says, is known lost iff it timed out since, and times out 2^n RTOs after its latest, n-th retransmission; before the first, one RTO after the write, unless that was brought forward to a time now past |
| StreamHistory.AliveExactly | src/mux/relconn/connvars.rs:117-121 | In every run an endpoint is closing iff its application ended its writes, and alive unless a failure or reset broke it off, or it is closing with nothing unacknowledged |
| StreamHistory.ClosingWaits | src/mux/relconn/connvars.rs:266-271 | In every run, a live endpoint that is closing has something unacknowledged |
| StreamHistory.ClosedForGood | src/mux/relconn/connvars.rs:302-307 | Once closed, an endpoint stays closed and writes nothing more |
| StreamHistory.CloseComesThrough | src/mux/relconn/connvars.rs:266-271 | From every reachable state with both ends alive and one closing, after all messages under way are lost and without any failure, a continuation exists after which the peer has read everything and the closing end is gone |
| StreamHistory.DeathIsAnnounced | src/mux/relconn/mod.rs:222-246 | An endpoint that dies, and one that is dead and speaks again, sends a reset |
| StreamHistory.AcksFollowArrivals | src/mux/relconn/connvars.rs:188-200 | In every run the pending acknowledgements are exactly the segments, repeats included, that arrived since the last acknowledgement and not too far ahead, and the timer runs out 1 ms after the first of them |
| StreamHistory.AcksTellAll | src/mux/relconn/connvars.rs:233-253 | Every acknowledgement sent names exactly those, in order, and how far the stream is released |
| ErasureCode.XorRecoversAnyK | src/fec/wrapped.rs:25-45 | The hypothesis made of the erasure code is satisfiable: one XOR parity shard recovers any one missing shard, for any number of data shards |
| FecFraming.PostDecodeInverts | src/fec/mod.rs:9-30 | Unpadding a padded packet gives the packet back |
| FecFraming.PostDecodeExactly | src/fec/mod.rs:21-30 | A shard decodes to a packet iff it begins with that packet's little-endian length and bytes |
| FecEncoding.RepairLen | src/fec/encoder.rs:86-88 | The number of parity shards is the greatest that is at most what was asked, at most twice the run, and keeps all shards within 255 |
| FecEncoding.MaxLen | src/fec/encoder.rs:32 | The greatest length among the packets, attained by one of them |
| FecEncoding.Encode | src/fec/encoder.rs:30-65 | The result is every packet padded to the longest plus two, followed by the code's parity shards |
| FecDecoding.FrameDecoder.Decode | src/fec/decoder.rs:34-101 | Feeding a shard to the mutable decoder does what `Fed` says |
| FecDecoding.FedLoads | src/fec/decoder.rs:43-72 | Feeding a shard of a code word records it in its place and counts it once, and returns nothing early |
| FecDecoding.FedRebuilds | src/fec/decoder.rs:73-101 | The parity shard that completes k shards returns the packets of exactly the absent data shards |
| FecDecoding.DataShardGivesItsPacket | src/fec/decoder.rs:39-68 | A data shard, and any shard of a run without parity, gives its own packet back at once |
| FecDecoding.MisfitIsIgnored | src/fec/decoder.rs:47-56 | A shard of another length, out of range, or after reconstruction changes nothing |
| FecDecoding.DoneOnlyByGiving | src/fec/decoder.rs:57-101 | A decoder is done only when it gives something back, and keeps the other shards until then |
| OutOfBand.OobDecoder.InsertParity | src/session/machine.rs:205-269 | Stores the shard and makes the run's only attempt once data plus parity reach the run length, as `ParityInserted` says, for every eviction and hash order |
| OutOfBand.OobDecoder.Reconstruct | src/session/machine.rs:236-267 | One attempt: the cached frames are padded and fed, then the slot until something comes back, which is paired with the missing numbers |
| OutOfBand.OobDecoder.Load | src/session/machine.rs:239-245 | Feeds the cached frames in order, and gives up exactly when one is too long for the claimed shard length |
| OutOfBand.OverlongGivesUp | src/session/machine.rs:239-242 | A cached frame too long for the claimed shard length ends the attempt with nothing |
| OutOfBand.HeldIsCached | src/session/machine.rs:224-233 | The listing of cached frames of a run is exact and in order |
| FecTheorems.HonestCode | src/fec/encoder.rs:30-65 | The shards of a run that was sent form a code word whose data part carries the original frames |
| FecTheorems.DataLoads | src/session/machine.rs:238-245 | After the cached frames have been fed, the decoder holds exactly those shards |
| FecTheorems.SearchFinds | src/session/machine.rs:253-266 | Going through the parity slot in any order ends with the packets of the absent data shards |
| FecTheorems.RecoveredAreMissing | src/session/machine.rs:246-264 | Those packets are the original bodies of the missing numbers, in the same order and number |
| FecTheorems.MarkerIsNoShard | src/session/machine.rs:254-258 | Fed to a loaded decoder, the marker 255 is ignored |
| FecTheorems.NothingFound | src/session/machine.rs:253-266 | Once the empty marker has fixed the shard length, every real shard is rejected |
| FecTheorems.RebuildIsExact | src/session/machine.rs:205-269 | For an honest run, any cache contents, eviction and order: nothing comes back, or every uncached frame under its number with its original body; the length assertion holds |
| FecTheorems.EnoughShardsSuffice | src/session/machine.rs:205-269 | At the attempt every missing frame comes back if and only if some data frame is cached or the marker is not iterated first |
| FecTheorems.MarkerFirstLosesARun | src/session/machine.rs:234-266 | A concrete spoilt attempt, for every code that recovers two of six shards: two frames lost, parity 1 and 3 received, the marker listed before them |
| Sending.SendLoop.OnPayload | src/session/mod.rs:249-267 | The payload leaves under the next frame number and joins the open run, which never exceeds 16 |
| Sending.SendLoop.OnFecTimeout | src/session/mod.rs:269-313 | Closing a run empties it and emits the parity frames that `RunClosed` says |
| Datagrams.ClosedRunIsHonest | src/session/mod.rs:269-313 | Every parity frame sent is an honest shard of the last, contiguous, at most 16 frames; its shards number at most 255 and its pad size is its shard length |
| Datagrams.ClosedRunSendsAllParity | src/session/mod.rs:290-313 | A run closed under loss emits every parity shard asked for, with indices 0, 1, 2 and so on |
| SenderHistory.SenderFollows | src/session/mod.rs:249-293 | In every run the payloads are numbered in order, and the open run is exactly those since a run was last closed, with or without measured loss |
| SenderHistory.ClosingForgets | src/session/mod.rs:269-293 | Closing leaves nothing open and numbers nothing; parity takes a measured loss and something to protect |
| SenderHistory.ClosingEmptiesTheRun | src/session/mod.rs:269-293 | After every closing step, whatever the loss, the run is empty and the next frame number unchanged; without loss nothing is sent |
| SenderHistory.NeverStuck | src/session/mod.rs:230-293 | In every reachable state any payload can be sent at once, or right after closing the open run, which is then possible |
| SenderHistory.EveryPayloadGoesOut | src/session/mod.rs:249-263 | While the network loses nothing, every payload is under way under its number |
| SenderHistory.EveryParityGoesOut | src/session/mod.rs:283-312 | While the network loses nothing, every parity frame asked for is under way, for exactly the payloads since a run was last closed |
| Replay.ReplayFilter.Add | src/session/machine.rs:149-165 | The sliding loop ends in the state that `Offered` says, and keeps the window ordered |
| Replay.AgreesWithHistory | src/session/machine.rs:149-165 | A number is accepted iff it never was before and is at most 10000 below the largest accepted; the window spans at most 10000 and holds exactly the accepted numbers in it |
| Receiving.RecvMachine.Process | src/session/machine.rs:71-137 | One packet on the mutable machine does what `Received` says; one that does not decode changes nothing |
| Receiving.RecvMachine.OfferAll | src/session/machine.rs:122-127 | Rebuilt frames pass the replay filter one by one, in order |
| Datagrams.OneMore | src/session/machine.rs:84-99 | Offering an authentic frame keeps the output authentic and free of repeats, and settles the frame: delivered, or older than the filter's span |
| Datagrams.StepKeepsInv | src/session/machine.rs:71-137 | Every step of sender, network and receiver keeps the invariant of the session |
| Datagrams.DeliveredIsAuthenticAtMostOnce | src/session/machine.rs:71-137 | In every run, every delivery is a payload under the number it was sent with, no number is delivered twice, and the decoder's assertion never fails |
| Datagrams.EnoughShardsFillTheRun | src/session/machine.rs:205-269 | In every run, whatever was evicted: a parity frame that triggers an attempt not spoilt by the marker leaves every frame of its run delivered, or older than the filter's span |
| RunCompleteness.RunsStayApart | src/session/mod.rs:269-313 | The protected runs of a sender never overlap, and every parity frame under way names one of them |
| RunCompleteness.OfferedExactly | src/session/machine.rs:122-127 | Of rebuilt frames offered in order, none delivered before, the filter takes exactly those not too old when the first was offered |
| RunCompleteness.RunFollows | src/session/machine.rs:205-269 | While nothing of a run is evicted, cache, slot, marker and deliveries are determined by what arrived of it |
| RunCompleteness.ComesBackIff | src/session/machine.rs:197-269 | In every run, while nothing of a protected run is evicted, a frame of it that does not arrive in time is delivered iff a parity frame arrives with which data plus parity frames of the run first reach its length, unless the marker spoils it or the frame is too old by then |
| RunCompleteness.ParityOvertakesData | src/session/machine.rs:197-202 | A concrete run in which as many frames as needed arrive, the last of them a data frame, and the missing frame is not delivered |
| Datagrams.XorCoversSingleParity | src/fec/encoder.rs:55-62 | The hypothesis of the session theorems is satisfiable for senders that ask for one parity frame |
| MinimumQueue.MinQueue.PushBack | src/stats.rs:30-40 | Appends to the queue |
| MinimumQueue.MinQueue.PopFront | src/stats.rs:43-57 | Removes the oldest element, if any; moves between the stacks never exceed the pushes |
| MinimumQueue.MinQueue.Transfer | src/stats.rs:44-55 | Turning the left stack over leaves the queue as it was, with right minima |
| MinimumQueue.MinQueue.PeekFront | src/stats.rs:60-66 | The oldest element, if any |
| MinimumQueue.MinQueue.Min | src/stats.rs:69-71 | An element of the queue that no other is less than, and none iff the queue is empty |
| MinimumQueue.MinQueue.MinIdx | src/stats.rs:74-82 | The index of a least item among both stacks |
| MinimumQueue.MinQueue.Len | src/stats.rs:25-27 | The slab holds as many items as the queue |
| MinimumQueue.PushFits | src/stats.rs:30-40 | Pushing keeps slab and stacks in step, keeps all cached minima right, and appends to the queue |
| MinimumQueue.PopFits | src/stats.rs:56 | Popping keeps slab and stacks in step, leaves no minimum that refers to the removed slot, and removes the front |
| MinimumQueue.MoveKeepsTurning | src/stats.rs:44-55 | Moving one index across keeps the queue order and the minima right |
| MinimumQueue.PushCachesMinimum | src/stats.rs:30-40 | Caching the lesser of the new index and the previous minimum is right for every stack |
| ReceiveLoss.RecvLossCalc.Record | src/session/rloss.rs:41-94 | The books are those of the history with this call in it and add up to the highest number seen; a due sample is the lost part of all counts since the last one |
| ReceiveLoss.RecvLossCalc.File | src/session/rloss.rs:42-52 | Fills a gap under the time the gap was opened, or opens the gaps below a new highest number |
| ReceiveLoss.RecvLossCalc.Scan | src/session/rloss.rs:54-71 | The scan that stops at the first recent entry finds exactly the expired ones |
| ReceiveLoss.RecvLossCalc.Prune | src/session/rloss.rs:54-75 | Exactly the expired entries go, each counted under its verdict |
| ReceiveLoss.RecvLossCalc.Sample | src/session/rloss.rs:76-93 | A due sample is the lost part of the running counts, which start anew; at most ten samples are kept, the oldest dropped |
| ReceiveLoss.FiledStaysSound | src/session/rloss.rs:42-52 | Filing keeps every number up to the highest in exactly one book, and stamps rising with the numbers over both maps together |
| ReceiveLoss.PrunedStaysSound | src/session/rloss.rs:54-75 | So does pruning |
| ReceiveLoss.ScanMayStop | src/session/rloss.rs:55-71 | Because stamps rise with the numbers, an unexpired entry shields all later ones |
| ReceiveLoss.BooksAddUp | src/session/rloss.rs:41-94 | Received, gaps, pruned as received and pruned as lost add up to the highest number seen |
| ReceiveLoss.VerdictsAreFair | src/session/rloss.rs:42-75 | Exactly which numbers a call newly counts as lost: gaps, or numbers it skips, of more than a second, and never the one just received |
| ReceiveLoss.VerdictIff | src/session/rloss.rs:41-75 | Over every history of calls: a number is counted lost iff at the end of some call it had been due for over a second and never received; otherwise it is a gap until received and good from then on, counted once due for over a second |
| ReceiveLoss.HistoryIsSound | src/session/rloss.rs:41-75 | After every history the four books balance and the stamps rise with the numbers |
| Sessions.ShardedAddrs.GetAddr | src/listener/table.rs:23-47 | An address used within ten seconds if there is any, or else one used last; there always is one |
| Sessions.SessionTable.Rebind | src/listener/table.rs:67-87 | Does what `Rebound` says on sessions that share no address map, and keeps the index from dangling |
| Sessions.SessionTable.Delete | src/listener/table.rs:88-97 | Removes the session and all its addresses from the index, which does not dangle |
| Sessions.SessionTable.Lookup | src/listener/table.rs:99-105 | The session that the index leads to, if any |
| Sessions.SessionTable.NewSess | src/listener/table.rs:107-125 | Registers a session; the index stays honest iff the addresses still leading to its token are among the new ones, as with a fresh token |
| Sessions.SessionTable.Resume | src/listener/mod.rs:281-343 | The listener's claim handling: afterwards the address leads to the session of the token |
| Sessions.ReboundStaysHonest | src/listener/table.rs:67-87 | A claim keeps every indexed address with a live session that holds it |
| Sessions.DeletedStaysHonest | src/listener/table.rs:88-97 | So does the end of a session |
| Sessions.AddedStaysHonestIff | src/listener/table.rs:107-125 | Exactly when registering a session keeps the index from dangling |
| Sessions.ReboundStaysCompleteIff | src/listener/table.rs:67-87 | Exactly which claims of a known session leave every held address leading to its holder |
| Sessions.StartedStaysCompleteIff | src/listener/mod.rs:281-343 | A claim that starts a session leaves every held address leading to its holder iff no other session holds the claimed one |
| Sessions.DeletedStaysComplete | src/listener/table.rs:88-97 | The end of a session leaves the others reachable, if they were |
| Sessions.StepStaysCompleteIff | src/listener/mod.rs:184-343 | Exactly which events do: every end of a session, and every claim, for a session old or new, of an address no other session holds that does not give up one also held under another shard |
| Sessions.FoundIffClaimed | src/listener/table.rs:99-105 | After a history of such events an address leads to a session iff that session's latest claim for some shard is the address |
| Sessions.RunMatchesHistory | src/listener/mod.rs:184-343 | In every run the table holds exactly the live sessions and each shard's last claim, and the index never dangles |
| Sessions.FoundMeansClaimed | src/listener/table.rs:99-105 | In every run, lookup yields only a live session whose latest claim for some shard is that address |
| Sessions.LatestClaimWins | src/listener/mod.rs:281-343 | Right after a claim its address leads to the claiming session and the address given up leads nowhere |
| Sessions.SharedAddressIsLost | src/listener/table.rs:67-87 | A concrete run after which a live session cannot be found under its address |
| RecentlySeen.RecentFilter.Check | src/recfilter.rs:24-47 | Lets a hash through iff it was not let through within the last 600 s, up to the instants at which the clock is read; nothing expired stays behind |
| RecentlySeen.DroppingOne | src/recfilter.rs:26-36 | Dropping an expired front entry keeps map and queue in step with the history |
| RecentlySeen.RememberedIsRecent | src/recfilter.rs:26-42 | Once the front has not expired, whatever is remembered is recent |
| RecentlySeen.AddingOne | src/recfilter.rs:42-46 | What is not remembered was not let through recently; adding it keeps the queue in time order without repeats, and repeats of a hash ten minutes apart |

## Left out

- Congestion control (Cubic, Highspeed) and loss signalling to it: floating point over published formulas; the window is an arbitrary number at every step.
- RTT and bandwidth estimates: the RTO and the RTT spread are arbitrary readings, the RTO positive; only the delivery counter of the bandwidth estimator is modelled.
- The async runtime, channels, pipes, timers and the pacer: an event is chosen when its guard holds; a full channel is a lost message.
- SYN and RST handshakes, the multiplexer's stream ids and their reuse, and the 600-second final timeout beyond its place among the failures.
- Application pipes that fail: `success |=` in src/mux/relconn/connvars.rs:203-206 can never become false, so the pipe always accepts.
- Encryption, cookies, handshakes, TLS detection and the TCP and UDP backhauls: frames and messages arrive intact or not at all.
- bincode and the padding of data frames: messages, frames and acknowledgement lists are values; a list that does not decode is `None`.
- Wrap-around of 64-bit seqnos and frame numbers, and overflow of the doubled timeout: numbers are unbounded.
- Clock readings: within one event each acknowledged segment is judged at one reading, where the code takes two in a row.
- Reed-Solomon arithmetic, its instance cache and its limit of 256 shards: any k of k + m shards recover all, as a hypothesis.
- Cache capacities and recency order: an insertion may evict any other entries.
- The binomial search for the number of parity shards and its memo table: the number asked for is arbitrary, the caps are modelled.
- Switches that turn error correction off (SOSISTAB_NO_OOB, SOSISTAB_NO_FEC): the latter equals a run closed without measured loss.
- Statistics, pings and the loss calculator's call inside the receive machine: they do not influence what is delivered.
- The quantile over loss samples (src/session/rloss.rs:97-104): a sort and an index.
- Locks: the session table's operations are atomic, as its callers run in one task; digests of distinct messages are taken to be distinct.
- ConnectionVars.ConnVars.NextEvent: decides at one reading of the clock; the pure guard `Enabled` also admits a timer that expires while the choice is being made.
- Datagrams.EnoughShardsFillTheRun: speaks of attempts not spoilt by the marker, the only exception to an attempt by `EnoughShardsSuffice`; which arrivals lead to an attempt is stated by `ComesBackIff`, for runs of which nothing is evicted.
- RunCompleteness.ComesBackIff: speaks of runs of which the caches drop nothing; what an attempt gives back under any eviction is stated by `RebuildIsExact` on what is still cached.
- FecTheorems.MarkerFirstLosesARun: the hash function is not modelled; the listing order is argued in its comment.
- Recovery.LossNeverWedgesTheStream: shows that a continuation exists in every state; that the network and the scheduler choose it is a fairness assumption outside the model.
