# QuinkGL, verified

A Dafny model of the parts of QuinkGL, a peer-to-peer federated-learning framework, whose
correctness is not visible from any one function, with proofs about it. `dafny verify
dfyconfig.toml` checks everything.

**Byzantine-robust aggregation** (`Numerics`, `Vectors`, `Aggregation`, `FedAvg`, `Krum`,
`TrimmedMean`, `Scaffold`). Weights are vectors of reals. The norm is any function that is a
Euclidean norm; its triangle inequality is proved from Cauchy-Schwarz, not postulated. Krum and
MultiKrum are shown to stay near every honest update whichever f peers are corrupted and whatever
they send; the trimmed mean stays in the honest range, and one more corrupted value breaks it;
Scaffold's corrections telescope over whole runs.

**Chunked model transfer** (`ChunkRanges`, `Chunking`, `ChunkSender`, `ChunkReceiver`,
`ChunkProtocol`, `RetryPass`, `ResendBudget`). The sender's loop and the receiver's handler are classes whose methods are proved
equal to step functions. `ChunkProtocol` composes them: any number of transfers, a network that
loses, duplicates and reorders, honest senders with unique transfer ids, and a set of hostile peers
that may send arbitrary chunks under their own identity. The safety results hold in every state any
sequence of actions can reach, and `RetryPass` says what the loop owes its chunks.

**Bookkeeping against a simple specification** (`SlidingWindow`, `TokenBucket`, `Directory`,
`PendingQueue`, `ManifestExchange`, `Consensus`). Each object is a class refining a step function;
the theorems quantify over every run of calls. Clock readings are inputs; `publish` gets the two
readings it makes.

**Printer and parser** (`Text`, `Utf8`, `PercentEncoding`, `Magnet`). Magnet URIs with
percent-encoding (sections 2.1 and 2.3 of RFC 3986) over UTF-8, decoding as the host library does,
including malformed input.

## Where the code does not do what it seems to promise

- FedAvg's fallback for a zero total weight is called uniform, but divides the unchanged zero-sum
  weights by the number of peers: peers in unanimous agreement get the zero vector
  (`FedAvg.UnanimityIffNonzeroTotal`). With dictionary weights the total is recomputed per key
  without that fallback, and the division fails (`FedAvg.AggregateValues`).
- Accepted indices need not stay below `next_index`: once the loop has given up before the last
  chunk, a NACK answered from the cache may send any chunk (`ChunkProtocol.AcceptedPassesNextIndex`).
  `ChunkSender.ResendsStayBelowNextIndexIff` and `ChunkProtocol.WireWithinReachIff` say exactly when
  that happens.
- The loop can send a chunk that is already acknowledged, if a receiver claims it before it was sent
  (`RetryPass.AcknowledgedBeforeSent`); `RetryPass.SendsAcknowledgedIff` is the exact condition, and
  an honest receiver never causes it (`ChunkProtocol.NeverSendsAcknowledged`).
- The clean-up of NACK buckets drops those of incoming transfers too, and every removal is worth
  another full burst: `TokenBucket.ExactTransferBudget` is the exact allowance, and the intended one
  holds only without removals (`TokenBucket.IntendedBudgetIffNeverRemoved`).
- An expiry never travels with an advertisement, so whatever arrives from the network obeys the
  most-recent rule (`Directory.UniformIsOrderly`, `Directory.MostRecentReturned`). A local caller
  that ingests or publishes an advertisement with an expiry attached, for instance one that
  `all_advertisements` returned, can break it (`Directory.MixedExpiryKeepsOlder`);
  `Directory.RuleHoldsIff` says exactly when it holds, and `Directory.DirectoryReturns` what is
  returned in any case.
- A chunk is marked as seen before the admission checks, so one refused at its first arrival stays
  refused while the duplicate filter remembers it (`ChunkReceiver.RefusedThenWelcome`);
  `ChunkReceiver.DeliveredIffAllTaken` says exactly what is delivered.
- A failed aggregation can put two updates of one peer in the queue; validation then refuses every
  later batch (`PendingQueue.PoisonedNeverAggregates`), and
  `PendingQueue.FailPoisonsIffPeerReturned` says exactly when that happens.
- Magnet keywords that are empty or hold a comma do not survive printing (`Magnet.RoundTripIff`).
- `prune_old_checkpoints` with `keep_rounds` zero, or negative enough, erases the verdict
  (`Consensus.PruneKeepsVerdictIff`).

## Model

| member | source | states |
|---|---|---|
| `Aggregation.Validate` | src/quinkgl/aggregation/base.py:95-129 | refuses exactly the empty list, then a list naming a peer twice, then differing shapes; names the first repeated peer, or the first of another shape |
| `FedAvg.Aggregate` | src/quinkgl/aggregation/fedavg.py:69-112 | succeeds exactly on admissible lists and returns the weighted average with all peers and the sample total |
| `FedAvg.AggregateNumpy` | src/quinkgl/aggregation/fedavg.py:114-128 | the accumulating loop computes the linear combination with the normalised weights |
| `FedAvg.CombineCoordinate` | src/quinkgl/aggregation/fedavg.py:182-195 | each coordinate of the result is the inner product of the coefficients with that coordinate of all peers |
| `FedAvg.AverageIsConvex` | src/quinkgl/aggregation/fedavg.py:69-128 | non-negative weights of positive total: every coordinate lies between the least and greatest value sent |
| `FedAvg.CoefficientSum` | src/quinkgl/aggregation/fedavg.py:84-93 | the coefficients add up to one, or to zero when the total weight is zero |
| `FedAvg.CountsBySamples` | src/quinkgl/aggregation/fedavg.py:54-55 | by data size with a non-zero total, the total times each coordinate is the sum of sample count times value |
| `FedAvg.UniformIsMean` | src/quinkgl/aggregation/fedavg.py:56-57 | uniform weighting is the plain mean of every coordinate |
| `FedAvg.InverseLossWeight` | src/quinkgl/aggregation/fedavg.py:58-65 | weight times loss is one, unless clipped to the end of the range that the inverse lies beyond; a missing or non-positive loss counts as one |
| `FedAvg.UnanimityIffNonzeroTotal` | src/quinkgl/aggregation/fedavg.py:88-93 | peers that all send the same non-zero vector get it back if and only if the total weight is not zero, and the zero vector otherwise; the fallback divisor does not make weights uniform |
| `FedAvg.AggregateValues` | src/quinkgl/aggregation/fedavg.py:166-195 | one key of dictionary weights: the same average, except that at a zero total it divides by zero where the array branch returns the zero vector |
| `FedAvg.AverageNear` | src/quinkgl/aggregation/fedavg.py:114-128 | an average of vectors within b of h, in any Euclidean norm, is within b of h |
| `Krum.ComputeDistances` | src/quinkgl/aggregation/krum.py:92-122 | the double loop fills a symmetric matrix of pairwise distances with a zero diagonal |
| `Krum.ComputeScores` | src/quinkgl/aggregation/krum.py:49-57 | every score is the least total distance to any n-f-2 of the other peers |
| `Krum.ScoreIsLeastSum` | src/quinkgl/aggregation/krum.py:53-56 | no choice of n-f-2 neighbours has a smaller total distance than the score, and some choice has it |
| `Krum.HonestScoreIsLow` | src/quinkgl/aggregation/krum.py:49-57 | an honest peer scores at most (n-f-2)*D |
| `Krum.LowScoreIsNear` | src/quinkgl/aggregation/krum.py:49-57 | whoever scores that low is within the robustness bound of every honest update (pigeonhole over its nearest neighbours and the triangle inequality) |
| `Krum.KrumIsRobust` | src/quinkgl/aggregation/krum.py:71-78 | at most f corrupted among n >= 2f+3, honest pairwise within D: any update p of least score has (n-2f-2)*dist(p,h) <= ((n-f-2)+(n-2f-2))*D for every honest h |
| `Krum.Aggregate` | src/quinkgl/aggregation/krum.py:59-90 | succeeds exactly with n >= 2f+3 admissible updates, returns one of least score, and that one obeys the bound for every choice of honest set and D |
| `Krum.MultiKrumIsRobust` | src/quinkgl/aggregation/krum.py:150-153 | each of the n-2f updates that any argsort of the scores ranks first obeys the same bound |
| `Krum.SelectionIsRobust` | src/quinkgl/aggregation/krum.py:150-157 | so does the uniform mean of those n-2f updates |
| `Krum.MultiAggregate` | src/quinkgl/aggregation/krum.py:133-157 | returns the uniform mean of the n-2f best updates of a score order, their peers and sample total, with the bound for every honest set and D; refuses fewer than 2f+3 updates |
| `TrimmedMean.TrimCount` | src/quinkgl/aggregation/trimmed_mean.py:73-79 | k is the floor of n*ratio, and for every ratio in [0, 0.5) the slice [k, n-k) is not empty |
| `TrimmedMean.TrimmedIsMeanOfRest` | src/quinkgl/aggregation/trimmed_mean.py:95-98 | there are two cuts of k values, none inside the cuts beyond those left, and n-2k times the result is the sum of the values left |
| `TrimmedMean.KeptIsHonestRange` | src/quinkgl/aggregation/trimmed_mean.py:95-97 | with at most k corrupted values everything that survives trimming lies between the honest bounds |
| `TrimmedMean.TrimmedIsRobust` | src/quinkgl/aggregation/trimmed_mean.py:81-98 | at most k = floor(n*ratio) corrupted: the result lies between the least and greatest honest value |
| `TrimmedMean.OneMoreBreaksIt` | src/quinkgl/aggregation/trimmed_mean.py:81-98 | the bound is tight: k+1 corrupted values can push the result out of the honest range |
| `TrimmedMean.TrimmedIgnoresOrder` | src/quinkgl/aggregation/trimmed_mean.py:91-98 | listing the same values in another order gives the same result |
| `TrimmedMean.AggregateIgnoresOrder` | src/quinkgl/aggregation/trimmed_mean.py:39-98 | any reordering of an admissible list of updates is admissible and gives the same weights |
| `TrimmedMean.AggregateIsRobust` | src/quinkgl/aggregation/trimmed_mean.py:81-98 | at most k corrupted peers: every coordinate of the result lies between the bounds of the honest peers |
| `TrimmedMean.NothingTrimmed` | src/quinkgl/aggregation/trimmed_mean.py:87-89 | trimming nothing is the plain mean that the k == 0 branch returns |
| `TrimmedMean.TrimNumpy` | src/quinkgl/aggregation/trimmed_mean.py:81-100 | the loop writes for every column the mean of what two cuts of k values leave |
| `TrimmedMean.Aggregate` | src/quinkgl/aggregation/trimmed_mean.py:39-71 | succeeds exactly with at least three admissible updates, returns for every coordinate the mean of what two cuts of k values leave, and stays in the honest range for every honest set |
| `Scaffold.UncorrectedIsPlain` | src/quinkgl/aggregation/scaffold.py:354-363 | in any round, without an estimate for the key the result is the plain average |
| `Scaffold.CorrectionIsExact` | src/quinkgl/aggregation/scaffold.py:354-363 | in any round, with one, it differs by eta times the weighted gaps of exactly the peers whose control variate holds the key |
| `Scaffold.RoundDrift` | src/quinkgl/aggregation/scaffold.py:349-365 | one full round differs from the plain average by eta times the gap between average control and estimate |
| `Scaffold.EstimateStep` | src/quinkgl/aggregation/scaffold.py:305-317 | the global control variate moves by (1-beta) times that gap |
| `Scaffold.SharesAddUp` | src/quinkgl/aggregation/scaffold.py:284-297 | the shares in the average control add up to one unless the samples cancel out, and peers that sent none have no share |
| `Scaffold.OneSidedKeys` | src/quinkgl/aggregation/scaffold.py:309-317 | a key that only the estimate or only the average holds keeps its value there |
| `Scaffold.Telescoping` | src/quinkgl/aggregation/scaffold.py:115-132 | over any run of full rounds, (1-beta) times the summed difference from round 2 on equals eta*(c_last - c_first), for every key and coordinate |
| `Scaffold.Strategy.AverageControls` | src/quinkgl/aggregation/scaffold.py:278-303 | the nested accumulation averages the control variates sent, by samples if their total is positive and equally otherwise |
| `Scaffold.Strategy.AggregateKey` | src/quinkgl/aggregation/scaffold.py:349-365 | the loop over peers computes the corrected average of one key |
| `Scaffold.Strategy.UpdateGlobalControl` | src/quinkgl/aggregation/scaffold.py:305-317 | replaces the estimate, or blends every key of the average into it and keeps the other keys |
| `Scaffold.Strategy.Aggregate` | src/quinkgl/aggregation/scaffold.py:93-145 | one round: output from the estimate before the round, peers and sample total, then the estimate updated; a refused list changes nothing |
| `ChunkRanges.ChunkIndexRanges` | src/quinkgl/network/gossip_community.py:173-188 | the loop with running start and prev produces the maximal runs of the sorted indices |
| `ChunkRanges.RangesCover` | src/quinkgl/network/gossip_community.py:173-188 | the ranges are strictly increasing, non-adjacent and cover exactly the set |
| `ChunkRanges.RangesAreFewest` | src/quinkgl/network/gossip_community.py:173-188 | no list of intervals covering exactly the same set is shorter |
| `ChunkRanges.PackChunkRanges` | src/quinkgl/network/gossip_community.py:191-196 | packs the ranges as big-endian pairs; fails exactly when some index does not fit 32 bits |
| `ChunkRanges.UnpackChunkRanges` | src/quinkgl/network/gossip_community.py:199-212 | accepts exactly the well-formed payloads and returns the indices they cover |
| `ChunkRanges.SackRoundTrip` | src/quinkgl/network/gossip_community.py:191-212 | unpacking what was packed for any set within [0,total) is accepted and gives back the set |
| `ChunkRanges.UnpackedStaysInBounds` | src/quinkgl/network/gossip_community.py:199-212 | an accepted payload never names an index at or beyond total, whoever wrote it |
| `Chunking.JoinAll` | src/quinkgl/network/gossip_community.py:1712-1714 | the chunks of any bytes, in index order, concatenate to those bytes |
| `ChunkSender.LoopKeepsValid` | src/quinkgl/network/gossip_community.py:2575-2648 | every step of the send loop keeps the accounting invariant |
| `ChunkSender.AckMerges` | src/quinkgl/network/gossip_community.py:1880-1897 | what the receiver packs for a set of indices is accepted, adds exactly that set to acked, and completes the transfer exactly when all are acked |
| `ChunkSender.NackKeepsValid` | src/quinkgl/network/gossip_community.py:2044-2057 | so does a NACK that re-arms chunks, which forgets at most 8 attempts for each of at most 128 indices |
| `ChunkSender.RetransmissionBudget` | src/quinkgl/network/gossip_community.py:2583-2634 | in every run: chunks sent = next_index + retry_count, no attempts entry exceeds 8, and after K handled NACKs at most 8*(total + 128*K) chunks were sent |
| `RetryPass.PassResends` | src/quinkgl/network/gossip_community.py:2583-2611 | whatever falls into a retry pass: it has sent again, once each and in order, chunks that were due and not acknowledged, among them all that still are not; it gives up exactly when it meets such a chunk with 8 attempts |
| `RetryPass.TopBeginsPass` | src/quinkgl/network/gossip_community.py:2575-2583 | every turn of the loop that has neither completed nor timed out begins such a pass with the clock just read |
| `RetryPass.SendIsStamped` | src/quinkgl/network/gossip_community.py:2604-2606 | a loop step sends one chunk, stamped with the clock and costing one attempt, or leaves all times and attempts |
| `RetryPass.FillsTheWindow` | src/quinkgl/network/gossip_community.py:2613-2632 | the next chunk is sent exactly if there is one and fewer than 16 chunks, or than there are, are in flight |
| `RetryPass.SendsAcknowledgedIff` | src/quinkgl/network/gossip_community.py:2583-2632 | a loop step sends an acknowledged chunk exactly when it sends next_index for the first time and that has been acknowledged |
| `RetryPass.AcknowledgedBeforeSent` | src/quinkgl/network/gossip_community.py:2613-2632 | a run in which that happens |
| `ChunkProtocol.NeverSendsAcknowledged` | src/quinkgl/network/gossip_community.py:2583-2632 | with an honest receiver, in every reachable state, the loop never sends an acknowledged chunk |
| `RetryPass.NackRearms` | src/quinkgl/network/gossip_community.py:2044-2057 | a NACK on an active transfer re-arms exactly the requested chunks it may act on that are sent and not acknowledged |
| `RetryPass.BelowIsFilter` | src/quinkgl/network/gossip_community.py:2020-2021 | the indices a NACK may act on are the requested ones in range |
| `RetryPass.NackedIsResent` | src/quinkgl/network/gossip_community.py:2044-2057 | such a chunk has been acknowledged or sent again by the end of the next retry pass that the loop completes |
| `ResendBudget.WireBudget` | src/quinkgl/network/gossip_community.py:1951-2076 | all chunks of a transfer: the loop bound, and in answer to the NACKs granted in [t1,t2] at most 128*(20 + (t2-t1)/2) resends from the cache, through the token bucket that stays while the transfer is cached |
| `ResendBudget.PeerBudget` | src/quinkgl/network/gossip_community.py:1951-2076 | all transfers to one peer together: in answer to the NACKs granted in [t1,t2] at most 128*(40 + (t2-t1)/2) resends, through the bucket they share |
| `ChunkSender.ResendsStayBelowNextIndexIff` | src/quinkgl/network/gossip_community.py:2044-2072 | NACKs, whatever they ask for, only have chunks below next_index resent if and only if the transfer is active, or forgotten, or the loop has reached all chunks |
| `ChunkSender.OutgoingChunkTransfer.OnChunkAck` | src/quinkgl/network/gossip_community.py:1859-1897 | merges a well-formed acknowledgement into acked and marks completion; ignores a wrong total or malformed ranges |
| `ChunkSender.OutgoingChunkTransfer.OnRequestChunks` | src/quinkgl/network/gossip_community.py:2020-2072 | re-arms the sent, unacknowledged chunks of an active transfer, or lists what is resent from the cache |
| `ChunkSender.OutgoingChunkTransfer.InFlightCount` | src/quinkgl/network/gossip_community.py:761-766 | counts the unacknowledged chunks sent less than the timeout ago |
| `ChunkSender.OutgoingChunkTransfer.RetryStep` | src/quinkgl/network/gossip_community.py:2583-2608 | one visit of the retry pass |
| `ChunkSender.OutgoingChunkTransfer.FillStep` | src/quinkgl/network/gossip_community.py:2613-2638 | one visit of the window-filling loop and the completion test behind it |
| `ChunkSender.OutgoingChunkTransfer.Step` | src/quinkgl/network/gossip_community.py:2575-2648 | one step of the send loop as the specification function says, reporting the chunk sent |
| `ChunkReceiver.Receiver.AddChunk` | src/quinkgl/network/gossip_community.py:703-712 | adds a chunk to the buffer of its key only, counts new indices towards the acknowledgement, and reports fullness |
| `ChunkReceiver.Receiver.FinishTransfer` | src/quinkgl/network/gossip_community.py:2393-2468 | reassembles, drops the buffer, and registers and delivers if size and deserialisation pass; other keys untouched |
| `ChunkReceiver.Receiver.AnswerDuplicate` | src/quinkgl/network/gossip_community.py:2223-2228 | a chunk the filter knows is acknowledged if it is buffered and ignored otherwise; other keys untouched |
| `ChunkReceiver.Receiver.StoreChunk` | src/quinkgl/network/gossip_community.py:2356-2403 | opens the buffer if need be, adds the chunk and finishes a full transfer; other keys untouched |
| `ChunkReceiver.Receiver.OnModelChunk` | src/quinkgl/network/gossip_community.py:2204-2378 | the whole handler: completed registry, duplicate filter, caps, buffering, acknowledgement; other keys untouched |
| `ChunkReceiver.FullBufferReassembles` | src/quinkgl/network/gossip_community.py:722-733 | a full buffer of honest chunks holds every index and concatenates to the sent bytes |
| `ChunkReceiver.ReceiveKeepsOk` | src/quinkgl/network/gossip_community.py:2204-2468 | handling any honest chunk keeps the inbox right and acknowledges only accepted indices |
| `ChunkReceiver.ReceiveReplies` | src/quinkgl/network/gossip_community.py:2204-2378 | the reply to any honest chunk, exactly: everything once completed, what is stored to a repeated stored chunk, what the acknowledgement rule says to a chunk that is stored, nothing otherwise |
| `ChunkReceiver.RepliesAreExpected` | src/quinkgl/network/gossip_community.py:1790-1797 | over any arrivals: a stored chunk is acknowledged, with exactly all stored indices, if and only if it completes the transfer, is the 16th new one since the last acknowledgement, or comes 0.25 s after it |
| `ChunkReceiver.DeliveredIffAllTaken` | src/quinkgl/network/gossip_community.py:2204-2468 | honest chunks in any order, repetitions, clock readings and verdicts: the model is delivered, once, exactly when every index was admitted at its first authentic arrival; until then those are buffered |
| `ChunkReceiver.DeliveredIffAllArrived` | src/quinkgl/network/gossip_community.py:2204-2468 | where nothing objects, the model is delivered once exactly when every index has arrived |
| `ChunkReceiver.RefusedStaysRefused` | src/quinkgl/network/gossip_community.py:2223-2229 | a chunk refused at its first authentic arrival is never taken, whatever arrives later |
| `ChunkReceiver.RefusedThenWelcome` | src/quinkgl/network/gossip_community.py:2223-2323 | two arrivals of one index, refused for want of room and then welcome: nothing is taken |
| `ChunkReceiver.ReceiveAccountsDeliveries` | src/quinkgl/network/gossip_community.py:2444-2468 | whatever arrives from whomever, callbacks number one per purge of the completed entry plus one if it is there |
| `ChunkProtocol.StepKeepsInv` | src/quinkgl/network/gossip_community.py:1834-2656 | every action of the system (send step, chunk, acknowledgement or NACK arrival, expiry) keeps the global invariant |
| `ChunkProtocol.AckedWithinAcceptedWithinSent` | src/quinkgl/network/gossip_community.py:1881-1897 | in every reachable state acked is within accepted, which is within the chunks put on the wire and, while the send loop runs and after it until a NACK overshoots, within [0,next_index) |
| `ChunkProtocol.WireWithinReachIff` | src/quinkgl/network/gossip_community.py:2044-2072 | in every run, what was put on the wire for a transfer is within [0,next_index) if and only if no NACK answered from the cache asked for more |
| `ChunkProtocol.ExposedCanPass` | src/quinkgl/network/gossip_community.py:2059-2072 | from every reachable state with the transfer cached, inactive and unfinished, two steps make a willing receiver accept chunk next_index |
| `ChunkProtocol.AcceptedPassesNextIndex` | src/quinkgl/network/gossip_community.py:2059-2072 | such states are reachable for every transfer of more than 16 chunks: a run ends with chunk 16 accepted and next_index 16 |
| `ChunkProtocol.OnlySentBytesArrive` | src/quinkgl/network/gossip_community.py:2377-2403 | everything buffered, reassembled or delivered for an honest transfer is the sender's own bytes, in every reachable state |
| `ChunkProtocol.CompletedMeansReassembled` | src/quinkgl/network/gossip_community.py:2575-2656 | a sender that completed, or whose loop returned True, implies the receiver reassembled exactly the sent bytes unless a buffer of the transfer expired |
| `ChunkProtocol.CompletedMeansDelivered` | src/quinkgl/network/gossip_community.py:2405-2468 | if moreover the bytes fit the size limit and deserialise, they were handed to the callback |
| `ChunkProtocol.CanComplete` | src/quinkgl/network/gossip_community.py:2204-2656 | from every reachable state with an active sender, all its chunks on the wire and an admitting receiver, some continuation completes the transfer |
| `ChunkProtocol.TransferCanComplete` | src/quinkgl/network/gossip_community.py:2204-2656 | every honest transfer of a size the receiver takes can run from its beginning to completion |
| `ChunkProtocol.AtMostOnceWithinCaps` | src/quinkgl/network/gossip_community.py:2270-2323 | in every reachable state, also with hostile peers: at most one callback per retained completed entry, at most 8 buffers per peer and 50 in all |
| `SlidingWindow.RateLimiter.Allow` | src/quinkgl/network/manifest_exchange.py:359-370 | one call: stale stamps dropped from the front, granted exactly below the limit, stamp recorded when granted |
| `SlidingWindow.WindowHoldsAtMostLimit` | src/quinkgl/network/manifest_exchange.py:359-370 | over every run with a non-decreasing clock, every closed window of the configured length holds at most limit grants to each key |
| `SlidingWindow.GrantedIffRoom` | src/quinkgl/network/manifest_exchange.py:359-370 | after every such run a call is granted exactly when permitted and fewer than limit grants lie in the closed window ending at the check |
| `TokenBucket.GrantsAreBounded` | src/quinkgl/network/gossip_community.py:1654-1696 | in every run and interval [t1,t2] grants number at most one full bucket, plus one per removal of the bucket, plus the refill |
| `TokenBucket.SpacedCallIsGranted` | src/quinkgl/network/gossip_community.py:1660-1672 | a call made at least one interval after every earlier one is always granted |
| `TokenBucket.PeerNackBudget` | src/quinkgl/network/gossip_community.py:1649-1672 | at most 40 + (t2-t1)/2 grants to one peer |
| `TokenBucket.TransferNackBudget` | src/quinkgl/network/gossip_community.py:1674-1696 | at most 20*(1+P) + (t2-t1)/2 grants to one transfer with P removals of its bucket |
| `TokenBucket.ExactTransferBudget` | src/quinkgl/network/gossip_community.py:1244-1247 | b + (t2-t1)/2 bounds the grants of every run with P removals if and only if b >= 20*(1+P) |
| `TokenBucket.IntendedBudgetIffNeverRemoved` | src/quinkgl/network/gossip_community.py:1244-1247 | the intended 20 + (t2-t1)/2 holds of all runs with P removals if and only if P is zero |
| `TokenBucket.NackBuckets.TryConsume` | src/quinkgl/network/gossip_community.py:1654-1672 | refill, cap and consume of one bucket; other buckets untouched |
| `TokenBucket.NackBuckets.PurgeExcept` | src/quinkgl/network/gossip_community.py:1244-1247 | removes exactly the buckets of transfers that are not outgoing |
| `Directory.CacheHolds` | src/quinkgl/network/directory.py:473-508 | after any run of ingests the cache is exactly the list of latest, unswept, never crowded-out ingests, oldest first |
| `Directory.ReadsChangeNothing` | src/quinkgl/network/directory.py:510-513 | the sweeps of queries and listings in between never change what is live later |
| `Directory.DirectoryReturns` | src/quinkgl/network/directory.py:463-513 | after any run of ingests, queries and listings, for any expiries: exactly the live latest advertisements that were never crowded out, in ingestion order |
| `Directory.MostRecentReturned` | src/quinkgl/network/directory.py:463-513 | when advertisements expire in ingestion order, as with the default expiry: exactly the live ones among the max_cache most recently ingested ids, each in its latest version, in ingestion order |
| `Directory.UniformIsOrderly` | src/quinkgl/network/directory.py:486-491 | advertisements that carry no expiry, as all that arrive from the network, expire in ingestion order |
| `Directory.NetworkReturned` | src/quinkgl/network/directory.py:463-513 | for what arrives from the network: exactly those ingested less than the default time ago among the max_cache most recent ids |
| `Directory.LiveForTtl` | src/quinkgl/network/directory.py:464-469 | what carries no expiry is live for exactly the default time |
| `Directory.RuleHoldsIff` | src/quinkgl/network/directory.py:463-513 | for any expiries: the directory returns the live ones among the most recent ids if and only if no live older one escaped being crowded out |
| `Directory.MixedExpiryKeepsOlder` | src/quinkgl/network/directory.py:486-491 | a run with expiries attached by a local caller in which an older swarm does escape |
| `Directory.PublishQuotas` | src/quinkgl/network/directory.py:517-561 | no creator exceeds its quota in any closed 24-hour window and the session cap is never exceeded, although publish reads the clock twice |
| `Directory.QueryIsExact` | src/quinkgl/network/directory.py:565-603 | a query returns a cached entry exactly if it is live and passes every filter |
| `Directory.FiltersCombine` | src/quinkgl/network/directory.py:583-602 | filters are conjunctive: no filter passes everything, each further tag is one more condition |
| `Directory.SwarmDirectory.EvictExpired` | src/quinkgl/network/directory.py:463-471 | removes exactly the expired entries, keeping order |
| `Directory.SwarmDirectory.IngestAd` | src/quinkgl/network/directory.py:473-508 | refuses unverified and superseded advertisements; otherwise replaces, sweeps and trims to the cap |
| `Directory.SwarmDirectory.AllAdvertisements` | src/quinkgl/network/directory.py:510-513 | sweeps and returns what is left |
| `Directory.SwarmDirectory.Query` | src/quinkgl/network/directory.py:565-603 | sweeps and returns the matching entries in order |
| `Directory.SwarmDirectory.PublishAd` | src/quinkgl/network/directory.py:541-561 | checks the signature, then the creator quota, then the session quota, and says which failed; then records and ingests; a refusal leaves cache and counter alone |
| `PendingQueue.StepConserves` | src/quinkgl/gossip/aggregator.py:548-573 | every event keeps each admitted update in exactly one place and the line in admission order |
| `PendingQueue.AdmittedExactly` | src/quinkgl/gossip/aggregator.py:497-573 | an update that reaches the queue is appended exactly when its round is within the tolerance, no queued update is from its peer and fewer than the maximum wait; otherwise it leaves no trace |
| `PendingQueue.UpdatesAreConserved` | src/quinkgl/gossip/aggregator.py:892-953 | in every run each admitted update is in exactly one of aggregated, batch, pending, dropped and lost; admission order is kept; with f failures since the last success pending holds at most (1+f)*max_pending_updates |
| `PendingQueue.StrategySeesDistinctPeers` | src/quinkgl/gossip/aggregator.py:926-936 | in every run without a failed strategy call, own update plus batch has pairwise distinct peer ids, so the duplicate check cannot fire |
| `PendingQueue.EverFailedMeansFail` | src/quinkgl/gossip/aggregator.py:937-953 | the failure flag of a run says exactly whether a strategy call failed in it |
| `PendingQueue.FailPoisonsIffPeerReturned` | src/quinkgl/gossip/aggregator.py:939-942 | a failing call leaves two updates of one peer in the queue if and only if a peer of the batch was admitted again meanwhile |
| `PendingQueue.PoisonedNeverAggregates` | src/quinkgl/gossip/aggregator.py:885-953 | from such a state nothing is ever aggregated again until a batch is lost or the queue is cleared |
| `PendingQueue.PoisonIsReachable` | src/quinkgl/gossip/aggregator.py:548-573 | a concrete run reaches such a state |
| `PendingQueue.ModelQueue.Enqueue` | src/quinkgl/gossip/aggregator.py:497-573 | round gate, scan for the sender, capacity check, append |
| `PendingQueue.ModelQueue.Drain` | src/quinkgl/gossip/aggregator.py:885-912 | takes the whole queue exactly when no aggregation is under way and enough updates wait |
| `PendingQueue.ModelQueue.Restore` | src/quinkgl/gossip/aggregator.py:939-942 | puts the batch back in front of what arrived meanwhile |
| `PendingQueue.ModelQueue.ClearPending` | src/quinkgl/gossip/aggregator.py:1300-1301 | drops what is left when the loop ends |
| `Text.SplitJoin` | src/quinkgl/manifest/magnet.py:83-84 | splitting undoes joining exactly when no part holds the separator |
| `Text.PrintedInt` | src/quinkgl/manifest/magnet.py:193-194 | reading a printed version number gives it back |
| `Utf8.DecodeEncode` | src/quinkgl/manifest/magnet.py:128-136 | decoding encoded text gives the text, whatever bytes follow |
| `PercentEncoding.UnquoteQuote` | src/quinkgl/manifest/magnet.py:183-198 | unquoting undoes quoting for every string |
| `Magnet.ParseXtExact` | src/quinkgl/manifest/magnet.py:147-161 | the xt parser accepts exactly the prefix followed by the lowercase hex of a 32-byte id |
| `Magnet.PrintThenParse` | src/quinkgl/manifest/magnet.py:169-199 | reading a printed link gives back id, name, trackers, peers and version for any text, and the keywords cut at commas with empty ones dropped |
| `Magnet.RoundTripIff` | src/quinkgl/manifest/magnet.py:63-199 | a link is read back unchanged if and only if its keywords are non-empty and comma-free |
| `Magnet.ParsedLinksRoundTrip` | src/quinkgl/manifest/magnet.py:63-199 | whatever URI a link was read from, its canonical form reads back as the same link |
| `Magnet.UnknownParametersIgnored` | src/quinkgl/manifest/magnet.py:81-111 | inserting unknown parameters, bare keys or empty segments anywhere never changes the result, success or error |
| `Magnet.ParseMagnet` | src/quinkgl/manifest/magnet.py:63-144 | the loops compute the specified result, and every link read has a 32-byte id and good keywords |
| `Magnet.FormatMagnet` | src/quinkgl/manifest/magnet.py:169-199 | fails exactly on ids that are not 32 bytes; the loops print the canonical order; good links read back |
| `ManifestExchange.ChunkManifestBytes` | src/quinkgl/network/manifest_exchange.py:201-216 | refuses empty bytes and non-positive sizes; otherwise non-empty chunks, all but the last of full size, that join to the input |
| `ManifestExchange.CompleteIffAll` | src/quinkgl/network/manifest_exchange.py:269-270 | the length test for completeness means that every index is there, so assembly never misses a key |
| `ManifestExchange.StoredStays` | src/quinkgl/network/manifest_exchange.py:238-267 | over any messages, accepted or refused, the total and every stored chunk stay as first stored |
| `ManifestExchange.HonestRun` | src/quinkgl/network/manifest_exchange.py:238-267 | chunks in any order with any repetitions fill exactly their places |
| `ManifestExchange.HonestNeverRefused` | src/quinkgl/network/manifest_exchange.py:238-267 | and none of them is ever refused |
| `ManifestExchange.ManifestReassembles` | src/quinkgl/network/manifest_exchange.py:238-298 | for any non-empty bytes and positive size: complete exactly when every index arrived, then the bytes come back, before that incomplete is reported |
| `ManifestExchange.ManifestAssembler.AddChunk` | src/quinkgl/network/manifest_exchange.py:238-267 | the checks in order; a first message fixes the total even if its index is then refused |
| `ManifestExchange.ManifestAssembler.AssembleAndVerify` | src/quinkgl/network/manifest_exchange.py:272-298 | the join loop followed by the digest check |
| `Consensus.StepIsGood` | src/quinkgl/gossip/consensus.py:87-118 | every step keeps one ballot entry per peer and round, only extends ballots or prunes whole rounds, and moves last_seen up by at most max_round_ahead |
| `Consensus.RecordStores` | src/quinkgl/gossip/consensus.py:87-118 | a record from a new peer is stored in the clamped round with its loss, accuracy and version, behind the others; a repeated one changes nothing; other rounds are untouched |
| `Consensus.NewestRoundIsBounded` | src/quinkgl/gossip/consensus.py:90-118 | over any run last_seen never falls and rises by at most max_round_ahead per record, whatever rounds peers claim |
| `Consensus.StoredValuesAreFrozen` | src/quinkgl/gossip/consensus.py:109-117 | a stored (peer, round) value never changes until its round is pruned |
| `Consensus.PruneKeepsNewest` | src/quinkgl/gossip/consensus.py:172-177 | pruning keeps exactly the newest rounds that the slice leaves, with their ballots |
| `Consensus.PruneKeepsVerdictIff` | src/quinkgl/gossip/consensus.py:130-177 | pruning leaves the default verdict unchanged if and only if nothing is stored or at least one round is kept |
| `Consensus.CloseLossesAgree` | src/quinkgl/gossip/consensus.py:143-160 | losses in an interval no wider than the tolerance: every peer agrees |
| `Consensus.AgreementMeansClose` | src/quinkgl/gossip/consensus.py:148-152 | if every peer agrees, no two losses differ by more than twice the tolerance |
| `Consensus.ConsensusTracker.RecordCheckpoint` | src/quinkgl/gossip/consensus.py:87-118 | clamps, ignores a repeated (peer, round), otherwise appends |
| `Consensus.ConsensusTracker.RecordLocalCheckpoint` | src/quinkgl/gossip/consensus.py:184-187 | keeps the larger of the local checkpoint rounds |
| `Consensus.ConsensusTracker.PruneOldCheckpoints` | src/quinkgl/gossip/consensus.py:172-177 | the deleting loop over the sorted rounds, for any keep_rounds including zero and negative |
| `Consensus.ConsensusTracker.CheckConsensus` | src/quinkgl/gossip/consensus.py:120-170 | the loops over losses, accuracies and agreeing peers compute the verdict on the newest or a given round; all agree exactly if every loss is within the tolerance of the mean |

## Left out

- Floating-point rounding, dtypes, array shapes, NaN and infinity checks: weights are flat vectors of reals, and shape is length.
- Dictionary weights in Krum and TrimmedMean, and flat arrays in Scaffold: the same arithmetic key by key, or on one key. Of FedAvg's dictionary branch one key is modelled; the loop over keys and non-array values are not.
- The branches of Scaffold's dictionary average for keys that some peers lack: the shape check compares key sets first, so they are never taken.
- Dictionary order in Scaffold: keys are visited in an arbitrary order, on which the result does not depend.
- FedAvgM, FedProx, entropy and staleness weighting: the weighted average again under other weights.
- The sorting algorithm: the sort behind np.sort and np.argsort is modelled by what it returns; the MultiKrum result holds for every argsort, so ties do not matter.
- Signatures, identity checks, the round gate, the per-peer byte budget and deserialisation: each is an arbitrary verdict per message in the chunk protocol.
- ChunkReceiver.Receiver.OnModelChunk: identity, signature, round gate, byte budget and deserialisation enter as verdicts, because they call code outside the model.
- ChunkReceiver.DeliveredIffAllTaken: no expiry or purge falls between the arrivals and the bytes deserialise, because either failure legitimately starts the transfer over or ends it.
- ResendBudget.WireBudget: resends count when their NACK is granted, because the source sends them one by one over later awaits; the bucket shared with other transfers enters as a verdict, and ResendBudget.PeerBudget bounds them together.
- ChunkProtocol.Run: honest transfers have more than one chunk and fewer than 2^32 chunks, as the 32-bit payload fields require; each handler reads the clock once; when the receiver sends NACKs is not modelled, so NACK contents are arbitrary.
- Delivery liveness, wall-clock bounds and a strict in-flight window: the code does not provide them, since a chunk is marked recent before the admission checks and retries re-arm chunks after new ones were sent.
- Clean-up methods of the receiver: the clean-up tasks are modelled on values, one key at a time, not as methods of the class.
- Around the pending queue: the own update's sample count, hooks, events and rejection counters are left out; an exception outside the strategy call is the event Crash, which loses the batch as the source does; the final aggregation at shutdown is an ordinary drain.
- PercentEncoding.Quote: strings are sequences of Unicode scalar values, so lone surrogates, on which the source raises, do not occur.
- Text.ParseInt: reads ASCII digits and blanks only, and has no limit on the number of digits.
- SHA-256: the digest is an arbitrary function; the nonce plays no part in assembly.
- On the consensus tracker: should_checkpoint and the JSON form of checkpoints are left out as one-line reads.
- Manifest schema validation, serialisation, fingerprints, privacy budgets, node states, the registry, the trust store, fan-out, IPv8 endpoints, relay, telemetry and the command line: wide and shallow, or input and output.
