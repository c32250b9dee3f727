# Verified models of the RsNano node

RsNano is a Nano block-lattice node. This project models the parts of it whose correctness is hardest to see from the
code, and proves what they promise for all inputs, all runs and all interleavings that the code allows.

**Cementing** (`Lattice`, `Ledger`, `CementingOrder`, `BlockCementer`, `ConfirmBatch`, `KeyRanges`). The walk that confirms a block and
everything it depends on, with its bounded stack and bounded result, while other transactions may insert, roll back and
cement at every refresh; the loop that cements a batch and notifies an observer; the confirmed-block counter and its
parallel recount. The ledger is a pair of maps over a lattice of blocks in which a hash determines its block, dependencies
have a lower rank and a chain has one block per height. Insertion, rollback and cementing by others are steps of the
environment that keep this shape.

**Wire codec** (`Bytes`, `Messages`, `Payloads`, `ListCodecs`, `WireRoundTrip`, `MessageHeader`, `MessageSerializer`,
`Frames`, `MessageStream`, `MessageDeserializer`, `NetworkFilter`, `WireLayout`, `CanonicalForm`). All thirteen messages and where their fields are on
the wire, the header whose 16 extension
bits determine the payload length, the reused serializer, the streaming deserializer and the duplicate filter.

**Connections** (`SynCookies`, `HandshakeProcess`, `NanoDataReceiver`, `ReadLoop`, `PausedRuns`). The cookies, the handshake, the
receiver with its pauses and retries, and the loop that reads the socket. Every receiver of the node has a duplicate filter that
it shares with the others, and so has the model: before each frame others may use the filter, any number of times. The other
connections that share the cookies, the send queue and the network's consent to a realtime channel are free choices of the
environment too. The answers of the message queue are an arbitrary sequence.

**Queues, weights, votes, accounts, rates** (`FairQueue`, `FairQueueRuns`, `RepWeights`, `FinalVotes`, `AccountCodec`,
`TokenBucket`). Weighted round robin, representative weights modulo 2^128, the write-once final vote table, the account
address codec and the token bucket.

Hashing, signatures and checksums are arbitrary functions given as parameters. Clocks, random numbers and the stop flag
are parameters or free choices: the `patience` of a batch is the number of times the stop flag is read before it is set, and
the `patience` of the read loop is the number of reads and polls before the channel is cancelled.

What the proofs found where the code does less than one might expect:

- A handshake reply survives the wire exactly if the query is a new-style one or no cookie can be handed out
  (`CreateResponse`, `ProcessHandshake`).
- `MessageSizeTooBig` cannot occur, because no extension bits announce more than the limit (`NothingIsTooBig`).
- A confirm request whose header names a type of block is read as hashes and roots from the front of that block
  (`ReadIsWritten`, `AnnouncedLengths`).
- An empty slot of the duplicate filter passes for the zero digest (`SeenExactlyWhenRemembered`, `ZeroIsSeenInFreshTable`).
- An address with the node prefix may be longer than the printed one (`NodePrefixAcceptsMore`, `PrintedExactlyWhenSixty`).
- Rebuilding the weight cache from partial maps depends on the split unless the minimum is at most 1
  (`RebuiltWeightIsRight`, `SplitMattersForLargerMinimum`).
- With a bound of zero a batch hands over empty batches and never gets past a root that has an unconfirmed dependency;
  it ends exactly if there is no such root (`ConfirmAll`, `Workable`, `StuckExample`).
- A failed request for the sentinel amount empties a token bucket, so asking again succeeds exactly if all of it is earned
  between one attempt and the next (`KeepTryingForAll`, `ShortGapsStarve`); every other request the bucket can hold is granted
  in time (`KeepTrying`).
- `SynCookies.validate` accepts an endpoint that has no cookie, although its comment speaks of valid and invalid only.
- The debug assertion in `queue_realtime` fails at every refusal of a connection except the first, because a refused message
  stays in `retry_enqueue` after it was queued (`QueueRealtime`, `FailuresAfter`, `TwoRefusals`). Delivery does not depend
  on it (`Serve`, `ServeOn`).
- A message behind one that the queue refused is handled with the next data that arrives, not when the pause ends
  (`UnhandledIsTheRest`, `ReceiveMessages`, `FramesBehindPause`).
- A list of more than 1000 frontiers, which only a debug assertion forbids, does not survive the wire
  (`SurvivesExactlyWhenWellFormed`).

## Model

| member | source | states |
|---|---|---|
| Ledger.CementRaisesOneAccountByOne | ledger/src/block_cementer.rs:62-86 | a cementing step raises exactly one account's height by exactly one, puts the frontier on that block, and so moves the sum of all heights by one |
| Ledger.CementConfirmsOneBlock | ledger/src/block_cementer.rs:109-118 | by the height comparison, exactly the cemented block becomes confirmed |
| Ledger.PerformKeepsInvariant | ledger/src/block_cementer.rs:62-99 | cementing in dependency order, insertion and rollback by anybody keep the confirmed set closed under dependencies and never undo a confirmation |
| Ledger.InsertConfirmsNothing | ledger/src/block_cementer.rs:109-118 | the height comparison confirms no block that is inserted later |
| Ledger.RollBackKeepsConfirmed | ledger/src/block_cementer.rs:91-99 | rolling back unconfirmed blocks leaves the confirmed ones as they were |
| Ledger.AncestorsStored | ledger/src/block_cementer.rs:40-41 | everything a stored block depends on is stored, so that the block lookup of the walk cannot fail |
| Ledger.AncestorsConfirmed | ledger/src/block_cementer.rs:43-60 | everything a confirmed block depends on, however deep, is confirmed |
| Ledger.RunIsSound | ledger/src/block_cementer.rs:36-105 | after any interleaved run of writes the invariant holds, exactly the old and the cemented blocks are confirmed, no block is cemented twice, and the counter has moved by their number |
| Ledger.CementedInDependencyOrder | ledger/src/block_cementer.rs:43-64 | in any run each dependency of a cemented block was confirmed at the start or cemented earlier |
| BlockCementer.LedgerStore.IsConfirmed | ledger/src/block_cementer.rs:109-118 | the lookup in both tables is the height comparison |
| BlockCementer.LedgerStore.Cement | ledger/src/block_cementer.rs:67-76 | the two writes are one enabled cementing step and keep everything recorded about the run |
| BlockCementer.LedgerStore.Refresh | ledger/src/block_cementer.rs:94-99 | between transactions others may write anything that is enabled; confirmations stay |
| CementingOrder.PostOrderIsComplete | ledger/src/block_cementer.rs:36-105 | the post-order of a block, in which what it receives comes before its predecessor, lists exactly its unconfirmed ancestors, each once |
| BlockCementer.PushedShape | ledger/src/block_cementer.rs:45-60 | what dropping the bottom of the stack leaves: never empty, the last pushed entry on top, nothing new, and everything if the bound suffices |
| BlockCementer.PushedIsTop | ledger/src/block_cementer.rs:53-57 | of the stack exactly as much of the bottom is dropped as the bound demands |
| BlockCementer.LinkComesFirst | ledger/src/block_cementer.rs:43-60 | of two unconfirmed dependencies the second, the received block, is looked at first, whatever the bound |
| BlockCementer.TopStays | ledger/src/block_cementer.rs:45-63 | the top is unchanged exactly when no dependency was pushed, duplicates and truncation notwithstanding |
| BlockCementer.BlockCementer.PushDependencies | ledger/src/block_cementer.rs:45-60 | the loop pushes exactly the unconfirmed dependencies, dropping the bottom of a stack that gets too long |
| BlockCementer.TurnIsEnabled | ledger/src/block_cementer.rs:62-67 | a block is popped and cemented only when everything it depends on is confirmed |
| BlockCementer.DescentKeepsStack | ledger/src/block_cementer.rs:45-60 | a stack that has lost nothing holds at most two entries per rank, so a large enough bound never truncates it |
| BlockCementer.TurnIsProgress | ledger/src/block_cementer.rs:40-89 | every turn decreases: unconfirmed ancestors of the target, confirmed stack entries, rank of the top |
| BlockCementer.TurnKeepsWalk | ledger/src/block_cementer.rs:40-89 | every turn keeps the soundness of stack and result |
| BlockCementer.TurnStaysOnCourse | ledger/src/block_cementer.rs:40-89 | neither a push nor a pop nor a dropped entry changes what the walk and the forgotten part of its stack come to in post-order |
| BlockCementer.RefreshKeepsWalk | ledger/src/block_cementer.rs:91-99 | neither soundness nor the measure is harmed by what others write in between |
| BlockCementer.LargeBoundSuffices | ledger/src/block_cementer.rs:101-104 | a walk whose bound reaches the number of unconfirmed ancestors and exceeds twice the rank confirms its target |
| BlockCementer.WalkIsInOrder | ledger/src/block_cementer.rs:36-106 | without interference a walk cements in post-order from the first block on, for every bound, and exactly as many blocks as the bound allows if it exceeds twice the rank |
| BlockCementer.QuietWalkOutcome | ledger/src/block_cementer.rs:101-106 | a finished walk without interference has cemented something of an unconfirmed target, or with a bound of zero the target alone if its dependencies are confirmed; the target is confirmed exactly when all its unconfirmed ancestors were cemented |
| BlockCementer.BlockCementer.VisitTop | ledger/src/block_cementer.rs:40-89 | the loop body does what one turn of the walk is defined to do |
| BlockCementer.BlockCementer.TurnAndRefresh | ledger/src/block_cementer.rs:40-99 | a turn and a refresh keep the walk sound, and make it smaller unless the target was rolled back |
| BlockCementer.BlockCementer.RunWalk | ledger/src/block_cementer.rs:36-105 | the walk terminates under interference, with duplicate entries and a truncated stack |
| BlockCementer.BlockCementer.Confirm | ledger/src/block_cementer.rs:30-107 | returns exactly what it cemented: distinct unconfirmed ancestors of the target, each after its unconfirmed dependencies, at most the bound; without interference these are the first blocks of the post-order, for every bound, with the full outcome |
| ConfirmBatch.BatchConfirmer.Attempt | ledger/src/ledger.rs:766-800 | one call of the cementer: the blocks added, the already-confirmed notice, success exactly when the root is confirmed, and when nothing is gained |
| ConfirmBatch.BatchConfirmer.FlushIfFull | ledger/src/ledger.rs:745-754 | waiting blocks are handed over, with a commit, exactly when they have reached the bound |
| ConfirmBatch.BatchConfirmer.Turn | ledger/src/ledger.rs:735-801 | one turn over a root keeps the books and, without interference, has exactly the stated outcome |
| ConfirmBatch.BatchConfirmer.ConfirmRoot | ledger/src/ledger.rs:733-805 | the inner loop ends with the root confirmed, missing or the stop flag set, and loses no cemented block; without interference it takes at most one turn more than it adds blocks, and a stuck root is left only by the stop flag |
| ConfirmBatch.CementedOneForOne | ledger/src/ledger.rs:766-780 | without interference the number of unconfirmed blocks falls by the number of blocks added, which bounds the turns |
| ConfirmBatch.OutcomeExtends | ledger/src/ledger.rs:732-818 | the outcome of a batch is built up root by root |
| ConfirmBatch.StuckAtItsTurn | ledger/src/ledger.rs:766-805 | whether a root gets stuck can be told from what is confirmed before its turn |
| ConfirmBatch.StuckExample | ledger/src/ledger.rs:766-805 | a chain of two blocks of which the upper one is to be confirmed gets stuck with a bound of zero and with no other bound |
| ConfirmBatch.BatchStops | ledger/src/ledger.rs:740-744 | a batch without a stuck root is stopped only if the stop flag is set before as many turns as it has roots and unconfirmed blocks |
| ConfirmBatch.BatchConfirmer.ConfirmAll | ledger/src/ledger.rs:718-825 | for every bound and observer: each block cemented by the call is reported exactly once, in cementing order; every batch reaches the bound, except that the last event of a call that was not stopped may be a smaller one, and is smaller than twice the bound; only confirmed roots are noticed as already confirmed; without interference exactly the ancestors of the stored roots become confirmed, the notices are exactly the failed and the already confirmed roots, and with enough patience the call ends by itself if and only if no root gets stuck |
| KeyRanges.BoundsFit | store_lmdb/src/lib.rs:60-69 | the range bounds fit into 256 bits for every thread count |
| KeyRanges.EvenRanges | store_lmdb/src/lib.rs:60-69 | the ranges but the last share the 256-bit keys evenly |
| KeyRanges.ExactlyOneRange | store_lmdb/src/lib.rs:56-84 | every 256-bit key falls into exactly one range, for every thread count |
| KeyRanges.SumOfRange | ledger/src/ledger.rs:344-348 | one thread adds up exactly the heights of the accounts in its range |
| KeyRanges.Recount | store_lmdb/src/confirmation_height_store.rs:94-113 | the threads together add up all heights, in whatever order they finish |
| KeyRanges.RebuildConfirmedCount | ledger/src/ledger.rs:341-354 | the counter rebuilt at start-up equals the one cementing has maintained, after any run |
| FinalVotes.FinalVoteStore.Put | store_lmdb/src/final_vote_store.rs:28-46 | succeeds exactly when the root is free or holds this hash; entries are never overwritten |
| FinalVotes.SameRootMeansCompeting | types/src/blocks/mod.rs:144-146 | two blocks have the same qualified root if and only if they have the same predecessor and, if there is none, the same account |
| FinalVotes.ApprovedExactly | ledger/src/vote_verifier.rs:57-69 | when nobody else writes, a candidate is approved for a final vote if and only if its block is stored, all it depends on is confirmed, and neither a vote on record nor an earlier approved candidate is for a block that competes with it |
| FinalVotes.AllApproved | ledger/src/vote_verifier.rs:16-69 | so candidates with confirmed dependencies and free roots that do not compete with each other are all approved |
| FinalVotes.VoteVerifier.ShouldVoteFinal | ledger/src/vote_verifier.rs:57-69 | true exactly when the block exists, its dependencies are confirmed and the root is free or its own; then the vote is on record |
| FinalVotes.VoteVerifier.Decide | ledger/src/vote_verifier.rs:25-43 | one candidate, final or not, with the renewal of the transaction before it: if others neither write nor vote meanwhile, which is certain without a renewal, it is approved exactly if it may be voted for |
| FinalVotes.VoteVerifier.VerifyVotes | ledger/src/vote_verifier.rs:16-47 | everything approved for a final vote owns its root and keeps its dependencies confirmed through rollbacks and forks; if others neither write nor vote meanwhile, which is certain if the transaction is never renewed, the result is exactly the candidates that may be voted for |
| FinalVotes.VoteVerifier.VerifyAllFinal | ledger/src/vote_verifier.rs:16-69 | of all votes that any number of final calls return, with rollbacks, forks and other votes in between, no two are for different blocks with the same predecessor or, without one, the same account, and all they depend on is confirmed |
| RepWeights.WrappingAddIsModular | types/src/amount.rs:112-118 | wrapping addition is addition modulo 2^128 |
| RepWeights.UpdateKeepsAgreement | ledger/src/rep_weights_updater.rs:41-81 | after an update the cache again holds exactly the stored weights that are non-zero and reach the minimum |
| RepWeights.RepWeightsUpdater.PutStore | ledger/src/rep_weights_updater.rs:67-81 | a zero weight is deleted, any other stored |
| RepWeights.RepWeightsUpdater.RepresentationAdd | ledger/src/rep_weights_updater.rs:41-52 | cache and store stay in agreement and the store moves by the amount |
| RepWeights.RepWeightsUpdater.RepresentationAddDual | ledger/src/rep_weights_updater.rs:89-110 | the dual update is two single updates, for different and for equal representatives |
| RepWeights.ApplyAll | ledger/src/rep_weights_updater.rs:41-110 | any sequence of single and dual updates applied to the updater keeps cache and store in agreement and comes to the single updates the next row is about |
| RepWeights.UpdatesAddUp | ledger/src/rep_weights_updater.rs:41-110 | after any sequence of updates every weight is the old one plus what was added, no zero is stored, and the total has moved by all amounts modulo 2^128 |
| RepWeights.UpdateUndone | ledger/src/rep_weights_updater.rs:41-52 | an update followed by its negation restores store and cache |
| RepWeights.SameAmountsSameStore | ledger/src/rep_weights_updater.rs:41-52 | updates that add the same amounts in any order have the same effect |
| RepWeights.RepWeightsUpdater.CopyFrom | ledger/src/rep_weights_updater.rs:29-35 | adds a partial map to the cache, in any key order |
| RepWeights.CopiedIsRunningSum | ledger/src/rep_weights_updater.rs:29-65 | copying several partial maps is, per representative, a running sum that is forgotten when below the minimum |
| RepWeights.PartsAddUpExactly | ledger/src/rep_weights_updater.rs:54-65 | the running sum is the true weight if and only if the total stays below the minimum or the first non-zero part reaches it |
| RepWeights.RebuiltWeightIsRight | ledger/src/rep_weights_updater.rs:29-35 | the same for the rebuilt cache |
| RepWeights.SplitDoesNotMatter | ledger/src/rep_weights_updater.rs:29-35 | for a minimum of at most 1 the rebuilt cache does not depend on the split or the order |
| RepWeights.SplitMattersForLargerMinimum | ledger/src/rep_weights_updater.rs:29-65 | for every larger minimum two partial maps leave nothing in the cache where one map with their sum is kept |
| FairQueue.NextIsUnique | utils/src/fair_queue.rs:207-232 | the first non-empty source after the cursor, round the ring, is unique |
| FairQueue.NextInKeyOrder | utils/src/fair_queue.rs:207-232 | it is the non-empty source with the next larger key, or the one with the smallest if there is none |
| FairQueue.AdvanceTowards | utils/src/fair_queue.rs:211-221 | a cursor step reaches the target or shortens the way to it, from stale cursors too |
| FairQueue.FairQueue.FreeCapacity | utils/src/fair_queue.rs:66-71 | free and used places add up to the maximum of the source, and the subtraction cannot underflow |
| FairQueue.FairQueue.Clear | utils/src/fair_queue.rs:85-88 | empties the queues and leaves a stale cursor behind |
| FairQueue.FairQueue.Push | utils/src/fair_queue.rs:93-104 | succeeds exactly when there is free capacity, appends to the source's queue, keeps the cached total |
| FairQueue.FairQueue.SeekNext | utils/src/fair_queue.rs:207-232 | terminates from any cursor when something waits, at the first non-empty source after it |
| FairQueue.FairQueue.Next | utils/src/fair_queue.rs:106-137 | hands out the oldest item of the source whose turn it is; no unwrap fails |
| FairQueue.FairQueue.NextBatch | utils/src/fair_queue.rs:139-147 | returns exactly the smaller of length and limit, each item in turn |
| FairQueue.FairQueue.Remove | utils/src/fair_queue.rs:149-154 | removes a source with its items and keeps the total right |
| FairQueueRuns.TurnIsUnique | utils/src/fair_queue.rs:106-137 | whose turn it is is determined by the state |
| FairQueueRuns.Replay | utils/src/fair_queue.rs:93-120 | any sequence of pushes and pops on the queue itself follows the run the other results are about, state and items |
| FairQueueRuns.FirstInFirstOut | utils/src/fair_queue.rs:93-120 | over any run, what was handed out of a source followed by what waits is what was accepted, in order |
| FairQueueRuns.GetsItsWeight | utils/src/fair_queue.rs:106-137 | a source whose turn begins gets max(1, priority) items in a row, or all that wait for it if these are fewer, whatever is pushed meanwhile |
| FairQueueRuns.ThenOthersFollow | utils/src/fair_queue.rs:122-137 | after that the next pop goes to somebody else, if anybody else waits |
| FairQueueRuns.PatienceIsBounded | utils/src/fair_queue.rs:122-137 | the number of pops that may pass a source by is at most the sum of the others' weights |
| FairQueueRuns.PopUsesPatience | utils/src/fair_queue.rs:106-137 | every pop that passes a waiting source by uses that number up |
| FairQueueRuns.WaitingSourceIsServed | utils/src/fair_queue.rs:106-137 | fairness: from any state and whatever is pushed meanwhile, a waiting source is served within the sum of max(1, priority) over the other sources |
| TokenBucket.TokenBucket.ResetWith | network/src/token_bucket.rs:86-98 | a zero capacity or rate means unlimited; the bucket starts full and the clock stopped |
| TokenBucket.TokenBucket.Refill | network/src/token_bucket.rs:110-124 | a refill that advances the clock computes more than half of the nominal tokens of its interval |
| TokenBucket.OneSecond | network/src/token_bucket.rs:110-124 | in a second the bucket earns its rate |
| TokenBucket.TokenBucket.TryConsume | network/src/token_bucket.rs:60-74 | since a reset a limited bucket never grants more than its capacity plus rate times elapsed time |
| TokenBucket.PollingGainsHalf | network/src/token_bucket.rs:110-124 | however often it is polled, a level gains at least half of the nominal tokens until it is full |
| TokenBucket.FastPollingCannotStarve | network/src/token_bucket.rs:110-124 | polled at any frequency, a level has gained k tokens or is full once the time of 2k-1 tokens has passed |
| TokenBucket.TokenBucket.Attempt | network/src/token_bucket.rs:60-74 | a failed attempt on the bucket is exactly such a poll |
| TokenBucket.TokenBucket.KeepTrying | network/src/token_bucket.rs:60-124 | repeated attempts, at any frequency, to consume what the bucket can hold succeed within twice the nominal time for the missing tokens |
| TokenBucket.TokenBucket.KeepTryingForAll | network/src/token_bucket.rs:66-68 | the exception is the sentinel amount: from an empty bucket repeated attempts succeed if and only if all of it is earned between one attempt and the next |
| TokenBucket.ShortGapsStarve | network/src/token_bucket.rs:66-68 | so they fail forever if every gap is too short by a token |
| AccountCodec.EncodeAccount | types/src/account.rs:13-45 | the digit loop prints the 300-bit number of account and checksum, most significant digit first |
| AccountCodec.Accumulate | types/src/account.rs:170-197 | the shifting loop computes the 512-bit number of the digits and fails exactly when some character is no digit |
| AccountCodec.ParseAccount | types/src/account.rs:109-182 | prefix, length, first digit, digits and checksum are checked as specified |
| AccountCodec.DecodeEncodedDigit | types/src/account.rs:199-222 | the digit tables are inverse |
| AccountCodec.EncodeDecodedChar | types/src/account.rs:199-222 | and the other way round |
| AccountCodec.DigitsInOrder | types/src/account.rs:199-222 | the digits are the decimal digits and small letters without 0, 2, l and v, in the order of their codes |
| AccountCodec.AccumulatedIsValue | types/src/account.rs:170-182 | digits whose value fits are not affected by the 512-bit accumulator dropping high bits |
| AccountCodec.AccumulatedIsModular | types/src/account.rs:170-182 | in general the last 512 bits of the value of the digits are kept |
| AccountCodec.ParsePrinted | types/src/account.rs:89-197 | every account is read back from its printed form, for any checksum function |
| AccountCodec.AcceptedHasPrefix | types/src/account.rs:119-152 | nothing is accepted without one of the five prefixes |
| AccountCodec.AcceptedIsPrinted | types/src/account.rs:119-182 | an accepted string with 60 characters after its prefix, as the nano and xrb prefixes demand, has exactly the characters of its account's encoding |
| AccountCodec.PrintedExactlyWhenSixty | types/src/account.rs:144-152 | under any prefix an accepted string is its account's encoding if and only if it has those 60 characters |
| AccountCodec.AcceptedExactlyWhenPrinted | types/src/account.rs:89-197 | a string with a nano or xrb prefix is accepted as an account if and only if it is that account's encoding |
| AccountCodec.NodePrefixAcceptsMore | types/src/account.rs:140-152 | with the node prefix a longer string is accepted for every account, because the length is not checked |
| NetworkFilter.SeenExactlyWhenRemembered | messages/src/network_filter.rs:34-112 | over every history, with collisions and expired clears: a digest is reported as seen if and only if some call inserted it within the age cutoff and nothing has cleared or displaced it since, or it is zero and the slot is empty |
| NetworkFilter.NetworkFilter.ApplyDigest | messages/src/network_filter.rs:54-66 | reports that and remembers the digest from now on |
| NetworkFilter.NetworkFilter.Apply | messages/src/network_filter.rs:48-52 | the same for the digest of a byte string |
| NetworkFilter.NetworkFilter.Check | messages/src/network_filter.rs:74-78 | reports that without changing anything |
| NetworkFilter.NetworkFilter.Clear | messages/src/network_filter.rs:81-107 | clears the slot only if it holds this digest and has not expired |
| NetworkFilter.NetworkFilter.ClearMany | messages/src/network_filter.rs:86-91 | clears the digests one after the other |
| NetworkFilter.NetworkFilter.ClearAll | messages/src/network_filter.rs:97-100 | empties every slot |
| NetworkFilter.NetworkFilter.Update | messages/src/network_filter.rs:34-36 | epochs never go back |
| NetworkFilter.ZeroIsSeenInFreshTable | messages/src/network_filter.rs:38-42 | a fresh table reports the zero digest exactly until the cutoff has passed |
| MessageHeader.HeaderCodec | messages/src/message_header.rs:137-171 | eight bytes are read as a header exactly when they are what that header is written as |
| MessageHeader.NothingIsTooBig | messages/src/message_header.rs:180-205 | no header announces a payload above the limit |
| MessageHeader.RejectionExactly | messages/src/message.rs:274-289 | for which header which reason to refuse it is given |
| WireRoundTrip.CountReadBack | messages/src/confirm_req.rs:64-125 | a count of up to 255 survives next to the block type and a flag |
| WireRoundTrip.ConfirmAckBits | messages/src/confirm_ack.rs:93-100 | the rebroadcast flag and the hash count do not disturb each other |
| WireRoundTrip.HandshakeBits | messages/src/node_id_handshake.rs:241-297 | the three handshake flags are read back |
| WireRoundTrip.LengthAgrees | messages/src/message_header.rs:180-205 | the length computed from the extension bits is the length of the payload, for every well-formed message |
| WireRoundTrip.NoUnderflow | messages/src/asc_pull_ack.rs:121-129 | the subtraction in the extension bits never goes below zero, even for a list so long that the 16-bit length wraps around |
| WireRoundTrip.BlocksReadBack | messages/src/asc_pull_ack.rs:193-227 | terminated block lists are read back |
| WireRoundTrip.FrontiersReadBack | messages/src/asc_pull_ack.rs:80-114 | terminated frontier lists without a default entry are read back |
| WireRoundTrip.HandshakeReadBack | messages/src/node_id_handshake.rs:252-287 | query and response are read back in both versions |
| WireRoundTrip.TelemetryReadBack | messages/src/telemetry_ack.rs:109-196 | telemetry with trailing unknown bytes is read back |
| WireRoundTrip.VoteReadBack | types/src/vote.rs:147-189 | votes are read back |
| WireRoundTrip.PayloadReadBack | messages/src/message.rs:184-261 | every well-formed message is read back from its payload |
| WireRoundTrip.OnlyWellFormedIsRead | messages/src/message.rs:210-261 | no payload at all is read as a message that is not well formed |
| CanonicalForm.ReadIsWritten | messages/src/message.rs:210-261 | a payload of the announced length that is read as a message is what that message is written as, up to the bytes that are not looked at; so nothing that could not have been written is accepted |
| CanonicalForm.AreBlocks | messages/src/asc_pull_ack.rs:204-227 | a list of blocks that is read is what it is written as, with or without the terminator at the end of the payload |
| CanonicalForm.TooManyBlocks | messages/src/asc_pull_ack.rs:204-227 | a list of more blocks than the limit is refused, not cut off |
| CanonicalForm.AreFrontiers | messages/src/asc_pull_ack.rs:104-111 | a list of frontiers that is read is what it is written as, with or without the terminator at the limit |
| ListCodecs.DeserializeRoots | messages/src/confirm_req.rs:162-181 | the loop reads the specified list, and fails on zero pairs, too few bytes and an empty list |
| ListCodecs.DeserializeHashes | types/src/vote.rs:153-156 | the loop reads hashes to the end of the payload or the limit |
| ListCodecs.DeserializeFrontiers | messages/src/asc_pull_ack.rs:104-111 | the loop reads frontiers to the default entry or the limit |
| ListCodecs.DeserializeBlocks | messages/src/asc_pull_ack.rs:204-227 | the loop reads blocks to the terminator or the end and fails beyond the limit |
| ListCodecs.DeserializePeers | messages/src/keepalive.rs:49-65 | the loop fills in eight peers |
| ListCodecs.SerializePairs | messages/src/confirm_req.rs:143-152 | the loop writes the specified bytes |
| ListCodecs.SerializeBlocks | messages/src/asc_pull_ack.rs:193-202 | the loop writes type, body and terminator as specified |
| ListCodecs.SerializePeers | messages/src/keepalive.rs:35-47 | the loop writes addresses and ports as specified |
| MessageSerializer.MessageSerializer.Serialize | messages/src/message_serializer.rs:26-42 | the bytes are header and payload of the message, whatever the reused buffer held |
| WireLayout.BigEndianDigit | messages/src/message_header.rs:137-149 | the most significant byte of a number comes first |
| WireLayout.LittleEndianDigit | messages/src/message_header.rs:148 | the least significant byte comes first |
| WireLayout.HeaderLayout | messages/src/message_header.rs:137-149 | the eight bytes of the header: the letters of the network, the three versions, the number of the kind, the extension bits, and then the payload |
| WireLayout.ExtensionBytes | messages/src/message.rs:177-182 | the two extension bytes of every message, flag by flag and count by count |
| WireLayout.AnnouncedLengths | messages/src/message_header.rs:180-205 | the payload length a receiver reads off every kind and all extension bits, well-formed or not |
| WireLayout.KeepaliveLayout | messages/src/keepalive.rs:35-47 | each address is followed by its port |
| WireLayout.PublishLayout | messages/src/publish.rs:56-61 | the block alone, with the length of its type |
| WireLayout.ConfirmReqLayout | messages/src/confirm_req.rs:143-152 | each hash is followed by its root |
| WireLayout.ConfirmAckLayout | types/src/vote.rs:176-189 | voter, signature, timestamp and the hashes |
| WireLayout.AscPullReqLayout | messages/src/asc_pull_req.rs:247-256 | number of the kind, request number, and the fields of each kind |
| WireLayout.AscPullAckLayout | messages/src/asc_pull_ack.rs:64-71 | number of the kind, request number, and the answer |
| WireLayout.AccountInfoLayout | messages/src/asc_pull_ack.rs:284-294 | the fields of an account info |
| WireLayout.FrontiersLayout | messages/src/asc_pull_ack.rs:80-88 | the pairs and 64 zero bytes behind them |
| WireLayout.Terminated | messages/src/asc_pull_ack.rs:193-202 | each block behind the number of its type, and a one at the end |
| WireLayout.BulkPullLayout | messages/src/bulk_pull.rs:43-62 | start, end and, if there is one, the count between padding |
| WireLayout.BulkPullAccountLayout | messages/src/bulk_pull_account.rs:39-47 | account, amount and flags |
| WireLayout.FrontierReqLayout | messages/src/frontier_req.rs:33-40 | start, age and count |
| WireLayout.HandshakeLayout | messages/src/node_id_handshake.rs:252-262 | query and response, with salt and genesis block in front of the signature |
| WireLayout.TelemetryLayout | messages/src/telemetry_ack.rs:109-141 | every field at its place, the unknown bytes last |
| Frames.NextFrameLater | messages/src/message_deserializer.rs:40-105 | more bytes never change a frame that could already be cut off, and a wait resumes where it left off |
| Frames.DrainLater | messages/src/message_deserializer.rs:36-105 | draining, pushing and draining again is draining everything at once |
| Frames.ChunkingDoesNotMatter | messages/src/message_deserializer.rs:36-105 | for every stream and every way to cut it into chunks the frames and the leftover state are the same |
| Frames.DrainIsTheOnlySplit | messages/src/message_deserializer.rs:49-105 | the frames found are the only way to split the stream, without loss or reordering of a byte, into whole messages, rightly refused headers and an incomplete rest |
| MessageStream.SameBytesSameOutcomes | messages/src/message_deserializer.rs:91-131 | results and filter calls depend on the bytes alone when nobody else uses the filter |
| MessageStream.SeenExactlyWhenRepeated | messages/src/message_deserializer.rs:108-131 | a frame is taken for a duplicate if and only if the filter is consulted and remembers its digest, or an empty slot passes for it |
| MessageStream.SnapshotsAlone | messages/src/message_deserializer.rs:108-131 | if nobody else uses the filter, its snapshot at each message is what the messages before made of it |
| MessageStream.RepeatedAtOnce | messages/src/network_filter.rs:54-66 | a frame that comes again at once is a duplicate, if the filter looks at its kind |
| MessageStream.ResentAtOnce | messages/src/message_deserializer.rs:108-131 | a vote that comes again at once is a duplicate vote, a block a duplicate block, and no other message is taken for a duplicate |
| MessageStream.NewGetsItsDigest | messages/src/message_deserializer.rs:91-131 | a block or vote that is new gets the digest of its payload |
| MessageStream.HeaderAccepted | messages/src/message.rs:274-289 | the header of a message is accepted exactly by a receiver of the same network with a low enough minimum version |
| MessageStream.DigestPassesThrough | messages/src/message.rs:210-261 | the digest of the filter changes nothing but the digest field |
| MessageStream.StreamRoundTrip | messages/src/message_deserializer.rs:36-131 | a list of well-formed messages, in any chunks, arrives complete and in order with nothing left over; only messages the filter has seen become errors |
| MessageStream.PlainRoundTrip | messages/src/message_serializer.rs:26-42 | without a filter exactly that list comes back |
| MessageStream.SurvivesExactlyWhenWellFormed | messages/src/message_deserializer.rs:79-105 | a message, with a list of frontiers of any length, comes back with nothing left over if and only if it is well formed and the protocols are compatible |
| MessageDeserializer.MessageDeserializer.Push | messages/src/message_deserializer.rs:36-38 | whatever the order of calls, the frames handed out and those still buffered are the frames of all bytes received |
| MessageDeserializer.MessageDeserializer.TryDeserialize | messages/src/message_deserializer.rs:40-64 | hands out the next frame, with the outcome and the filter it calls for; nothing exactly when none is complete |
| MessageDeserializer.MessageDeserializer.DeserializeHeaderAndPayload | messages/src/message_deserializer.rs:49-77 | consumes a refused header and remembers an accepted one |
| MessageDeserializer.MessageDeserializer.TryDeserializePayload | messages/src/message_deserializer.rs:79-89 | waits exactly while the payload is incomplete |
| MessageDeserializer.MessageDeserializer.DeserializePayload | messages/src/message_deserializer.rs:91-105 | decodes exactly the announced number of bytes |
| MessageDeserializer.MessageDeserializer.FilterDuplicates | messages/src/message_deserializer.rs:108-131 | only published blocks and votes consult the filter, and a duplicate is reported by its kind |
| SynCookies.SynCookies.Assign | network_protocol/src/syn_cookies.rs:33-56 | hands out a cookie exactly when the endpoint has none and its address is below the limit |
| SynCookies.SynCookies.DecCookieCount | network_protocol/src/syn_cookies.rs:154-163 | decrements a counter that is never zero, so that the panic is unreachable |
| SynCookies.SynCookies.TakeCookie | network_protocol/src/syn_cookies.rs:99-107 | returns the cookie that was handed to this endpoint; no cookie is ever taken back twice |
| SynCookies.SynCookies.Validate | network_protocol/src/syn_cookies.rs:60-77 | accepts exactly a right signature or an endpoint without a cookie; a wrong signature leaves the cookie |
| SynCookies.SynCookies.Expired | network_protocol/src/syn_cookies.rs:82-90 | collects the expired endpoints, each once |
| SynCookies.SynCookies.Purge | network_protocol/src/syn_cookies.rs:79-96 | keeps exactly the cookies that are not older than the cutoff, and keeps the counters equal to the number of live cookies per address |
| HandshakeProcess.HandshakeProcess.InitiateHandshake | network_protocol/src/handshake_process.rs:39-50 | a query is made exactly when a cookie can be assigned |
| HandshakeProcess.HandshakeProcess.ProcessHandshake | network_protocol/src/handshake_process.rs:52-103 | at most one query is answered; a node ID comes out only for a response signed over a cookie that was issued to this peer and had not been used, whatever other connections do between answering the query and looking at the response; verdict and cookies are exactly as specified for the cookies found there, which are the ones left by the answer if others make no change; a reply survives the wire if and only if the query is a new-style one or no cookie can be handed out |
| HandshakeProcess.HandshakeProcess.CreateResponse | network_protocol/src/handshake_process.rs:105-119 | answers the query and asks in turn if a cookie can be assigned; the reply survives the wire under that condition |
| HandshakeProcess.HandshakeProcess.VerifyResponse | network_protocol/src/handshake_process.rs:121-147 | the objections in their order; a bad signature costs the cookie, the own node ID and a foreign genesis block do not |
| HandshakeProcess.SignedBytes | messages/src/node_id_handshake.rs:85-98 | what is signed are the 32 bytes of the cookie, in the new version followed by the 32 bytes of the salt and of the genesis block |
| HandshakeProcess.SignedBytesDetermine | messages/src/node_id_handshake.rs:85-98 | so the signed bytes determine cookie, version, salt and genesis block |
| HandshakeProcess.AcceptedExactlyAsSigned | messages/src/node_id_handshake.rs:66-98 | with a verifier that binds signatures to their data, a response is accepted if and only if it carries what was signed, answers to the cookie that was signed, and neither its node ID nor its genesis block is objectionable |
| HandshakeProcess.OwnResponse | network_protocol/src/handshake_process.rs:105-119 | the response of a process carries the salt and the genesis block, and is accepted by a peer of the same genesis block if and only if that peer asked with the cookie it answers |
| HandshakeProcess.ObjectionExactly | network_protocol/src/handshake_process.rs:121-147 | which objection is made to a response |
| HandshakeProcess.HonestNodesConnect | network_protocol/src/handshake_process.rs:39-166 | two honest nodes get to know each other in three messages that all survive the wire, and all cookies are taken back, if others make no change to the cookies meanwhile |
| HandshakeProcess.NoSharedEvidence | network_protocol/src/handshake_process.rs:121-147 | the responses two connections accepted rest on different cookies, although the cookies are shared |
| HandshakeProcess.TwoConnections | network_protocol/src/handshake_process.rs:52-103 | that stays so when both process messages |
| NanoDataReceiver.NanoDataReceiver.EnsureHandshake | network_protocol/src/nano_data_receiver.rs:57-95 | the opening side asks first; the channel is closed exactly if the query cannot be made or sent |
| NanoDataReceiver.NanoDataReceiver.QueueRealtime | network_protocol/src/nano_data_receiver.rs:97-106 | a message is queued, or due and the channel pauses; the debug assertion holds at a refusal if and only if no earlier message of the connection was refused |
| NanoDataReceiver.NanoDataReceiver.ProcessRealtime | network_protocol/src/nano_data_receiver.rs:119-131 | obsolete messages are dropped, all others queued or due |
| NanoDataReceiver.NanoDataReceiver.ProcessHandshake | network_protocol/src/nano_data_receiver.rs:190-281 | the reply is sent or the connection ends; the channel pauses exactly for a verified node ID, and the message brought the verified response |
| NanoDataReceiver.NanoDataReceiver.ProcessMessage | network_protocol/src/nano_data_receiver.rs:172-288 | nothing is queued before the channel is a realtime channel, and only a handshake is tolerated |
| NanoDataReceiver.NanoDataReceiver.Handle | network_protocol/src/nano_data_receiver.rs:295-333 | duplicates are skipped, other errors end the connection, and the queue stays in step with the outcomes |
| NanoDataReceiver.NanoDataReceiver.TakeFrame | network_protocol/src/nano_data_receiver.rs:295-333 | after others have used the filter the next frame is taken; the recorded snapshots of the filter are in the order of time, each with the frame before applied, and lead up to what the filter is now |
| NanoDataReceiver.NanoDataReceiver.TakeIn | network_protocol/src/nano_data_receiver.rs:295-333 | an outcome is taken in: before the channel is a realtime channel there is nothing but handshake messages and duplicates, and the last one brought the verified response; after that exactly the deliverable messages are queued or due |
| NanoDataReceiver.NanoDataReceiver.Receive | network_protocol/src/nano_data_receiver.rs:292-341 | frames are handled in order, each judged by what the filter was at its turn, until one makes the receiver stop; otherwise no complete frame is left; in a realtime channel exactly the deliverable messages are offered to the queue, and exactly a refusal makes it pause |
| NanoDataReceiver.NanoDataReceiver.ToRealtimeConnection | network_protocol/src/nano_data_receiver.rs:133-170 | the channel becomes a realtime channel only after a verified response |
| NanoDataReceiver.NanoDataReceiver.TryUnpause | network_protocol/src/nano_data_receiver.rs:343-385 | during the handshake it waits for the send queue and then for the network; afterwards the due message is queued once or stays due, as the queue answers; nothing is lost or repeated |
| ReadLoop.WaitWhilePaused | network/src/tcp_network_adapter.rs:127-140 | a realtime connection goes on at the first offer the queue takes, and is cancelled exactly if it takes none within the patience; the receiver gives up only during the handshake |
| ReadLoop.Run | network/src/tcp_network_adapter.rs:97-142 | the receiver has received exactly the chunks read; every read and poll uses one of the patience, and the channel is cancelled only when that is used up; the receiver gives up a realtime connection only for an error; a realtime connection in which no new message was refused never waited and has handled every complete frame, and none is refused if the queue takes everything |
| ReadLoop.UnhandledIsTheRest | network_protocol/src/nano_data_receiver.rs:292-341 | the complete frames not yet handled are the last ones received, and there are none if and only if there are as many outcomes as complete frames |
| ReadLoop.OutcomesOfWire | network_protocol/src/nano_data_receiver.rs:292-341 | behind any whole frames every outcome is that of its message, judged by the snapshot of the filter, and what is left are the frames of the remaining messages |
| ReadLoop.NeverRightlyAborted | network_protocol/src/nano_data_receiver.rs:305-333 | no well-formed message of a compatible peer ends a realtime connection |
| ReadLoop.ExactlyOnceInOrder | network_protocol/src/nano_data_receiver.rs:97-385 | for every list of messages, chunks, pauses, refusals and other connections: a message is dropped as a duplicate if and only if the filter remembered it, or an empty slot passed for it, when its turn came; nothing is queued before a verified handshake; from then on every handled message that is neither obsolete nor a duplicate is queued exactly once and in order, except that the last may still be due during a pause |
| ReadLoop.KeptWithoutFilter | network_protocol/src/nano_data_receiver.rs:119-131 | without a filter the messages that are queued are exactly those that are not obsolete |
| ReadLoop.LiveKinds | messages/src/message.rs:262-270 | which nine kinds of messages are queued |
| ReadLoop.AloneInOrder | messages/src/message_deserializer.rs:108-131 | if nobody else uses the filter, what becomes of a message is decided by the messages before it alone, and one that comes twice in a row is dropped the second time |
| ReadLoop.RealtimeAfterHandshake | network_protocol/src/nano_data_receiver.rs:133-281 | before a connection is a realtime connection there are only handshake messages and duplicates; the last one brought a response, signed over a cookie issued to the peer, that carries its node ID |
| ReadLoop.EverythingQueued | network_protocol/src/nano_data_receiver.rs:97-341 | when all has arrived and nothing is unhandled, exactly the messages since the handshake that are neither obsolete nor duplicates have been queued |
| ReadLoop.Serve | network/src/tcp_network_adapter.rs:97-142 | a whole connection, in any chunks: once realtime it is never given up by the receiver; when all has been read and no complete frame is left, every message since the handshake that is neither obsolete nor a duplicate has been queued, once and in order; with a queue that takes everything no complete frame is left, unless the handshake was the last that was handled |
| PausedRuns.ReceiveMessages | network_protocol/src/nano_data_receiver.rs:292-341 | a chunk of messages is handled exactly up to the first one the queue refuses, obsolete ones and duplicates being passed over; frames stay unhandled if and only if that is not the last |
| PausedRuns.ServeOn | network/src/tcp_network_adapter.rs:97-142 | a realtime connection that is up to date reads any further messages in any chunks: it is never given up by the receiver; what is handled and kept is queued in order; if no new message is refused, which is certain if the queue takes everything, and the patience is not shorter than the list of chunks, all of it is read, handled and queued |
| PausedRuns.RefuseFirst | network_protocol/src/nano_data_receiver.rs:97-106 | a refused message makes the receiver pause right behind it, and leaves everything behind it unhandled |
| PausedRuns.FramesBehindPause | network_protocol/src/nano_data_receiver.rs:335-337 | that stays unhandled even after the refused message was queued and the pause has ended |
| PausedRuns.FailuresAfter | network_protocol/src/nano_data_receiver.rs:102-103 | over every run the debug assertion has never failed if and only if at most one message was refused |
| PausedRuns.TwoRefusals | network_protocol/src/nano_data_receiver.rs:97-106 | a run with two refusals in which it fails |

## Left out

- ConfirmBatch.BatchConfirmer.ConfirmAll: while others cement at the same time, does not say whether a root noticed as already confirmed was confirmed before its turn.
- FairQueueRuns.WaitingSourceIsServed: is about runs of pushes to known sources and pops, because removing and adding sources moves the cursor.
- TokenBucket.TokenBucket.TryConsume: computes refills exactly instead of in floating point, and time does not go back.
- MessageStream.SurvivesExactlyWhenWellFormed: lists of vote hashes, of roots and of blocks are within the bounds their constructors enforce.
- MessageStream.SameBytesSameOutcomes: assumes that nobody else uses the filter meanwhile; the frames themselves do not depend on that.
- ReadLoop.Run: does not say why the receiver gave up during the handshake; `ProcessHandshake` and `TryUnpause` do, call by call.
- Block validation, insertion and rollback are steps of the environment with the shape of a valid lattice.
- Block bodies are byte strings of the size of their type; the fields inside are not modelled.
- LMDB, its transactions and cursors are finite maps; refresh points are nondeterministic.
- Overflow of 64-bit counters, epochs and lengths is not modelled; the 128-, 256- and 512-bit arithmetic that matters is.
- The messages of the optional ledger snapshot feature are not modelled.
- Telemetry timestamps are whole milliseconds.
- `set_limit` of the token bucket, which changes limits without a reset.
- Deleting from the final vote table, which nothing in the voting code does.
- The latest keepalive per channel, statistics, logging, channel limits and bans.
- Whether two realtime channels may have the same node ID; the network's consent is a free choice here.
- Cryptography, hashing and random numbers are parameters; that cookies cannot be guessed is not stated.
