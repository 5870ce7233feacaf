# A verified model of the Bitcoin header chain and vote pipeline

The system is a light client that keeps a tree of Bitcoin block headers, follows the branch with most work, and uses it
to vote on cross-chain transactions. This project models its core in Dafny and proves what the rest relies on. The
`dfyconfig.toml` beside this file lists the sources, so `dafny verify dfyconfig.toml` checks everything.

- **Difficulty** (`Compact`, `Difficulty`, `Checkpoints`): compact bits, work, the adjustment once per epoch, and the
  built-in checkpoints.
- **Header tree and fork choice** (`HeaderTree`, `ForkChoice`, `Runs`, `Epochs`, `Locator`, `Rollback`, `MixedBits`,
  `LateFork`, `Blockchain`): the tree that stored headers form, what committing and rolling back do to it, and every
  walk over it. The class `Blockchain` holds the code's loops; each is proved against a function of the store, and the
  other modules prove what those functions mean.
- **Two-level store** (`HeaderCache`, `AsyncStore`, `HeaderStore`, `Codec`, `Reads`, `TwoLevel`, `Freshness`,
  `StoreRefinement`, `Crash`, `Orphans`, `SlowDisk`): the cache with its insertion order, writes that reach the disk
  later and in any order, the 116-byte records, and commits and rollbacks that act on whatever lookups answer. Runs of
  them over this store are proved to follow the chain that has neither cache nor delay, with the exact condition where
  rollbacks take part; so is what the disk holds at any point of a run. `Orphans` and `SlowDisk` are runs that leave
  the chain.
- **Vote pipeline** (`WaitingDb`, `Voter`, `Observer`) and **wire service** (`WireProtocol`, `WireAnswers`,
  `WireService`): the waiting database, all interleavings of the vote and retry loops with their goroutines and why each
  proof is where it is, the scan of the alliance chain, and the message handlers with what they answer.

Assumptions. The block hash is an arbitrary function among the network parameters, and a proof of work compares the same
number with the target. Two different headers in play do not hash alike, and none hashes to the previous block of the
root; the predicates `NoCollision` and `RunInput` say so where it is used. Heights stay below 2^31 (`HasRoom`). The compact
encoding, the work formula and the ordered map follow the public definitions of the btcd and ordered_map libraries, whose
sources are not part of this model. A database update is one atomic step. Time, the best height, answers of peers and
nodes, the order in which a map is walked, and the answers of `Current` are inputs.

Where the code and what is written about it differ, the model follows the code:

- README.md:43-49 speaks of the longest chain and of heights; the code compares total work. `Epochs.TipIsLongest` says
  where the two agree, `MixedBits.HeaviestNeedNotBeLongest` that they can differ.
- A comment in `startSync` means to allow peers that report height 0; the comparison with an initial 0 excludes them
  (`WireProtocol.HeightZeroNeverChosen`).
- `initializeCache` is sized for a hundred headers but asks for the tip's parent each time
  (`HeaderStore.HeaderDB.InitializeCache`).
- Epoch adjustments start from the best header's ancestor even for a header on a side branch
  (`Epochs.EpochStartOfForkIff` says when that is the branch's own epoch, `LateFork.EpochStartCanMiss` runs into the
  other case).
- A side branch takes over the height key of the cache, so a cached lookup by height can leave the main chain
  (`HeaderStore.CachedAgreesIff`, `HeaderStore.SideBranchTakesHeight`).
- Writes reach the disk in any order, so the tip on disk can end as an older best header (`AsyncStore.TipIsBestIff`,
  `AsyncStore.ReorderedTip`), and the disk can hold a tip without its parent (`Crash.TreeOnDiskIff`,
  `Orphans.ChildLandsFirst`).
- A write that stays under way while half a cache and one more follow it is found nowhere, and headers above it are
  refused as orphans (`Freshness.FreshReadable`, `SlowDisk.OneTooMany`).
- A rollback deletes headers from the bucket but not from the cache, nor from writes still under way. Until they leave
  the cache a header can be stored above a deleted parent (`Orphans.OrphanAfterRollback`), and a write under way can
  bring a deleted header back, on disk even as the tip (`Orphans.RollbackOvertaken`). While every record not on disk was
  put fresh at most half a cache of writes ago, `Freshness.RunFollowsIff` says exactly which runs over the two-level
  store follow the chain that `Runs` and `Rollback` speak of.
- A transaction can come to wait again after it was voted for (`Voter.VotedWaitsIff`, `Voter.VotedMayStillWait`).
- The scan repeats heights if the node's height falls (`Observer.ScannedOnceIff`).
- The retry threshold wraps around while the chain is shorter than the confirmations waited for
  (`WaitingDb.RetryAgreesIff`).

## Model

| member | source | states |
|---|---|---|
| Compact.CompactMeans | chain/blockchain.go:408 | bits stand for a mantissa of 23 bits, shifted by the exponent less three bytes and rounded towards zero, with the sign bit's sign |
| Compact.RoundTripError | chain/blockchain.go:455-460 | a target that goes through the compact encoding stays positive, never grows, and loses less than 2^-15 of itself |
| Compact.RoundTripMonotone | chain/blockchain.go:455-460 | a larger target never decodes to a smaller one |
| Compact.RoundTripStable | chain/blockchain.go:455-460 | a target that has been encoded once goes through the encoding unchanged |
| Compact.EncodingFits | chain/blockchain.go:460 | every target below 2^256 packs into 32 bits without loss |
| Compact.EncodesGreatest | chain/blockchain.go:460 | the encoder finds the greatest target that any bits stand for and that does not exceed the given one |
| Compact.EncodesNormally | chain/blockchain.go:460 | encoded bits of a positive target have the sign clear and no room for one more byte of mantissa |
| Compact.WorkBounds | chain/blockchain.go:105-106 | work is 2^256 divided by the target plus one, rounded down; none for a target that is not positive |
| Compact.HarderWeighsMore | chain/blockchain.go:105-111 | a smaller positive target never has less work |
| Compact.CalcWorkPositive | chain/blockchain.go:105-106 | a header counts at least one hash of work exactly when its target is positive and below 2^256 |
| Difficulty.RetargetExact | chain/blockchain.go:435-461 | the next target is the greatest that bits can stand for and that exceeds neither the limit nor the quotient of old target times elapsed time, held between half a week and eight weeks, by two weeks |
| Difficulty.RetargetBounds | chain/blockchain.go:435-461 | from a target of at least 4 that quotient stays within a factor of four, the new target is positive, at most the clipped quotient and within 2^-15 of it, and passes the range checks of proof of work |
| Difficulty.RetargetMonotone | chain/blockchain.go:435-461 | the longer an epoch took, the easier the next target |
| Difficulty.RetargetInRangeIff | chain/blockchain.go:407-420 | the adjusted bits pass the range checks exactly when old target times clamped duration is at least two weeks |
| Difficulty.RetargetCanVanish | chain/blockchain.go:449-460 | a target of 3 after a fast epoch adjusts to zero, which no header can meet |
| Checkpoints.GetCheckpoint | chain/checkpoints.go:126-146 | the latest built-in checkpoint before the date, or the earliest; its height opens an epoch |
| Checkpoints.CheckpointsOpenEpochs | chain/checkpoints.go:19-121 | every built-in checkpoint height is a multiple of 2016 and its bits stand for a target the network allows |
| HeaderTree.AncestorsArePath | chain/blockchain.go:255-263 | the ancestors of a header are itself and, one height further down each, the previous block of the one above |
| HeaderTree.BackIsAncestor | chain/blockchain.go:255-263 | stepping back n previous blocks succeeds exactly when the root is at least n below, and reaches the ancestor there |
| HeaderTree.WalksMeet | chain/blockchain.go:313-318 | two level walks that first meet at a height meet at the highest common ancestor |
| ForkChoice.AcceptsIff | chain/blockchain.go:141-173 | a header is accepted exactly when its parent is stored, its hash meets its own allowed target and, where difficulty is checked, its bits are the parent's or, at a multiple of 2016, those adjusted from the tip's ancestor 2015 below |
| ForkChoice.CommitKeeps | chain/blockchain.go:73-139 | one commit keeps the tree and every stored record, and the tip stays of maximal work |
| ForkChoice.RecommitIsNothing | chain/blockchain.go:100-115 | committing a header already stored changes neither the store nor the tip |
| ForkChoice.WorkGrows | chain/blockchain.go:105-106 | work grows strictly from ancestor to descendant |
| ForkChoice.ReorgDrops | chain/blockchain.go:110-122 | a new tip that is no child of the old one was not stored before and does not descend from the old tip |
| ForkChoice.ReorgReported | chain/blockchain.go:114-121 | the ancestor reported with a reorganisation is the highest common one and lies strictly below the old tip |
| Runs.RunInvariant | chain/blockchain.go:73-139 | over every run from one checkpoint: single root, each other header one above its stored parent with more work, its hash under its target; the tip is stored and of maximal work |
| Runs.HarderSiblingWeighsMore | chain/blockchain.go:105-111 | in every run, of two stored children of one parent the one with the harder target never weighs less, and weighs the same if the easier is the tip |
| Runs.RunOpsInvariant | chain/blockchain.go:332-373 | over every run of commits and rollbacks in any order, on a store without cache and delay, the store stays such a tree and the tip stays stored |
| Runs.RunRecommit | chain/blockchain.go:100-132 | at the end of any run, committing any stored header again changes nothing |
| Runs.TipCameFirst | chain/blockchain.go:108-111 | the tip is the checkpoint, or was stored by a commit of the run before which everything stored weighed less |
| Epochs.EpochFirstMeans | chain/blockchain.go:217-226 | the first header of an epoch is the ancestor at the last multiple of 2016 |
| Epochs.EpochUniform | chain/blockchain.go:153-164 | with difficulty checked, a header carries the bits of the first header of its epoch, and its work is that header's plus a fixed amount per block |
| Epochs.LongestIsHeaviest | chain/blockchain.go:202-203 | headers that share the first header of their epoch compare by work exactly as by height |
| Epochs.TipIsLongest | README.md:43-45 | no header sharing the tip's epoch is higher than the tip |
| Epochs.EpochStartOnTip | chain/blockchain.go:205-227 | for a header on the tip that opens an epoch above the root, the walk finds the tip's ancestor 2016 below the new height |
| Epochs.EpochStartOfForkIff | chain/blockchain.go:205-227 | for a header on any parent, the walk finds the parent's own epoch exactly when the tip has the parent's height and shares that epoch |
| LateFork.EpochStartCanMiss | chain/blockchain.go:205-227 | after a run of 2016 headers with difficulty checked, a second header at the top with the very bits just accepted is refused, as its adjustment starts from header 1 instead of 0 |
| Epochs.TestnetWalkNearest | chain/blockchain.go:183-200 | the testnet walk ends at the nearest ancestor-or-self that opens an epoch or has other than minimum bits, else at the root |
| Epochs.RequiredOnTestnet | chain/blockchain.go:177-200 | inside an epoch of such a network the minimum is required more than twenty minutes after the parent, and else the bits where the walk ends |
| Locator.DepthClosedForm | chain/blockchain.go:265-282 | locator entry 9k + j lies 9(2^k - 1) + j 2^k below the tip |
| Locator.DepthExceedsHeights | chain/blockchain.go:274-276 | 32-bit heights end before entry 261, so the cap of 500 is never reached |
| Locator.Overshoot | chain/blockchain.go:265-282 | the first entry at or below a fork of depth d is at most (d - 1)/9 too deep |
| Rollback.RollbackMeans | chain/blockchain.go:332-373 | nothing changes if the tip was made before the time or is the checkpoint, or no ancestor was or is; otherwise the new tip is the highest such ancestor and exactly the headers no higher than it remain |
| Rollback.StopIsNearest | chain/blockchain.go:341-367 | a rollback stops at the nearest ancestor-or-self of the tip that is early enough or the checkpoint, if there is one |
| Rollback.RollbackKeeps | chain/blockchain.go:332-373 | a rollback keeps the invariant of the store |
| Rollback.RollbackIdempotent | chain/blockchain.go:332-373 | rolling back twice to one time and checkpoint is rolling back once |
| Rollback.RollbackTipMaximal | chain/blockchain.go:368-372 | if what is kept above the root has equal bits, the new tip is of maximal work |
| Rollback.RollbackTipMaximalInEpoch | chain/blockchain.go:368-372 | with difficulty checked, the same if all that is kept lies below the new tip or shares the first header of its epoch |
| MixedBits.RollbackCanLoseMaximality | chain/blockchain.go:368-372 | with mixed bits it need not be: a run of three headers and a rollback after it |
| MixedBits.HeaviestNeedNotBeLongest | chain/blockchain.go:110-111 | a run of three headers ends with a tip lower than another stored header |
| Blockchain.Blockchain.constructor | chain/blockchain.go:42-71 | a fresh chain holds the checkpoint alone, with no work, as its tip |
| Blockchain.Blockchain.StepBack | chain/blockchain.go:289-297 | the loop over previous headers reaches the header n back, or fails where the store ends |
| Blockchain.Blockchain.GetEpoch | chain/blockchain.go:214-227 | the loop of 2015 steps from the tip computes the start of epoch characterised by the Epochs lemmas |
| Blockchain.Blockchain.CalcRequiredWork | chain/blockchain.go:177-212 | the loop and branches compute the required bits characterised by the Epochs and Difficulty lemmas, and terminate |
| Blockchain.Blockchain.CheckHeader | chain/blockchain.go:141-173 | true exactly for a header linked to the parent, with the required bits where they are checked, and with proof of work |
| Blockchain.Blockchain.GetCommonAncestor | chain/blockchain.go:287-328 | terminates without error at the highest common ancestor, also when the first header is not stored yet |
| Blockchain.Blockchain.CommitHeader | chain/blockchain.go:73-139 | the new store and tip record by record, each error and result; an ancestor is reported exactly when the new tip is no child of the old, strictly below an old tip of maximal work; heights are announced exactly for new tips of an open chain |
| Blockchain.Blockchain.GetBlockLocator | chain/blockchain.go:248-284 | entry i is the tip's ancestor at depth Depth(i), up to the last such depth in the store; at most 261 entries |
| Blockchain.Blockchain.RollbackTo | chain/blockchain.go:332-373 | on a store without cache and delay, the same of the walk and deletion, which keep the invariant and succeed exactly when some header from the tip down may be stopped at |
| HeaderCache.Retention | chain/headers.go:537-555 | a header set under a fresh hash, and under no other record, is found through at least half the cache size of further sets, however full the cache |
| HeaderCache.RetentionTight | chain/headers.go:545-555 | one more set can evict it, for every cache size with heights enough to fill it |
| HeaderCache.HeaderCache.Pop | chain/headers.go:537-543 | the oldest key goes, if there is one, every other keeps its entry and its place, and the order stays consistent |
| HeaderCache.HeaderCache.Set | chain/headers.go:545-555 | a set pops at most one key and adds the record and the height key, in place if present; both are found afterwards, and the order stays consistent |
| AsyncStore.FlushedBucket | chain/headers.go:122-185 | once nothing is pending the bucket holds exactly what was put, and the tip on disk was once best |
| AsyncStore.FlushOrderIrrelevantIff | chain/headers.go:122-185 | the bucket is independent of the order of flushes exactly when no hash is put with two records |
| AsyncStore.FifoTip | chain/headers.go:124-135 | flushes in order leave the best header as the tip on disk |
| AsyncStore.TipIsBestIff | chain/headers.go:122-185 | in any schedule the tip on disk is the best header exactly when its record is the last best write to have reached the disk |
| AsyncStore.ReorderedTip | chain/headers.go:129-134 | flushes out of order can leave an older one |
| AsyncStore.ReadsFreshPut | chain/headers.go:265-289 | a header put fresh at most half a cache ago is read back, flushed or not |
| AsyncStore.AsyncRefinesSync | chain/headers.go:122-150 | while unflushed records are that fresh, every lookup answers as under synchronous puts |
| StoreRefinement.PutsAgree | chain/blockchain.go:126-130 | a run of commits puts one record per hash, and its puts add up to the store and tip of the run |
| StoreRefinement.CommitsOverAsyncStore | chain/blockchain.go:73-139 | commits that read the two-level store, with writes flushed in any order between them, read, decide and write as over a synchronous store, as long as after each action every record not on disk was put fresh at most half a cache ago |
| StoreRefinement.DeletionReadsIff | chain/headers.go:231-289 | after a deletion a lookup still answers as the bucket exactly when the cache does not hold that header above the height kept |
| Reads.WritesCovered | chain/blockchain.go:73-139 | above a header of the chain, a commit that sees the whole chain and any number of stale headers decides and writes as one that sees the chain alone |
| Reads.StopCovered | chain/blockchain.go:341-367 | a rollback whose lookups see stale headers too stops where the chain's own walk stops |
| TwoLevel.ReadsAgree | chain/headers.go:265-289 | in a store in step with the chain, lookups find the whole chain exactly when they find what is pending |
| TwoLevel.RollbackAgreesIff | chain/blockchain.go:332-373 | while lookups find what is pending, a rollback over the two-level store does what it does to the chain exactly when no write above its stop is pending |
| TwoLevel.StepAgreesIff | chain/blockchain.go:73-139 | while lookups find what is pending, one commit, rollback or flush keeps the store in step with the chain exactly when it neither stores a header above one that only the cache still holds nor rolls back below a pending write |
| TwoLevel.RunAgreesIff | chain/headers.go:122-150 | while lookups find what is pending, a whole run stays in step throughout exactly when each of its actions is of that kind |
| Freshness.OverCache | chain/headers.go:545-555 | the cache of a run depends on the writes put alone, those of rollbacks among them, whatever was flushed and deleted in between |
| Freshness.FreshReadable | chain/headers.go:265-289 | if every record not on disk was put under a hash the cache did not hold, at most half a cache of writes ago, lookups find all that is pending, in any mix of commits, rollbacks and flushes |
| Freshness.RunFollowsIff | chain/headers.go:122-150 | a run with every pending record that fresh stays in step with the chain throughout exactly when it never stores a header above one that only the cache still holds nor rolls back below a pending write |
| Freshness.RunOverReads | chain/blockchain.go:332-373 | such a run keeps a tree around the best header, lookups find every header of it, and it is the bucket once nothing is pending |
| SlowDisk.OneTooMany | chain/headers.go:122-136 | for the real cache size and others, a run with one put more than that: the pending record is found nowhere, and a header the chain stores above it is refused |
| Crash.DiskIsEarlierRun | chain/headers.go:122-185 | if writes land in the order put, then at every point of a run of commits bucket and tip on disk are those of a run over some first part of the headers, as soon as anything landed |
| Crash.TreeOnDiskIff | chain/headers.go:152-185 | in any run that follows the chain, the disk holds a tree at every point exactly when no write lands before its parent's |
| Crash.RollbackUnsettlesTip | chain/blockchain.go:368-372 | between the deletion of a rollback and the landing of its put, the tip on disk is a header that the bucket has lost |
| Orphans.OrphanAfterRollback | chain/blockchain.go:332-373 | a run with every write flushed at once in which a header is rolled back and its child then becomes the tip, in memory and on disk, without its parent in the bucket |
| Orphans.RollbackOvertaken | chain/blockchain.go:368-372 | a run in which a header is rolled back while its write is pending, and ends in the bucket and as the tip on disk, though the best header in memory is the checkpoint |
| Orphans.ChildLandsFirst | chain/headers.go:122-136 | a run of commits at one point of which the tip on disk lacks its parent |
| HeaderStore.HeightWalk | chain/headers.go:352-366 | the walk down the bucket finds the one ancestor of the tip at the height, or nothing below the root |
| HeaderStore.LastAtHeightMeans | chain/headers.go:545-555 | the last header set at a height is the one after which none was set there |
| HeaderStore.CachedIsLastSet | chain/headers.go:568-581 | a cached answer for a height is the last header set there, and of that height |
| HeaderStore.LinearCacheAgrees | chain/headers.go:335-371 | if every put extended the previous one, the cached answer equals the walk |
| HeaderStore.CachedAgreesIff | chain/headers.go:335-371 | in general it does exactly when the tip's ancestor was the last header set at that height |
| HeaderStore.SideBranchTakesHeight | chain/headers.go:545-555 | a lighter side branch set later takes over the height |
| HeaderStore.HeaderDB.constructor | chain/headers.go:88-120 | an opened store has the tip on disk as best header, it and its stored parent in a cache of a hundred, and nothing pending; what held of the disk holds of the store |
| HeaderStore.HeaderDB.Put | chain/headers.go:122-136 | cache and best header change at once, the write is left pending, the header is readable, and the invariant of all schedules is kept |
| HeaderStore.HeaderDB.PutToDB | chain/headers.go:152-185 | one pending write reaches bucket and tip, and the invariant of all schedules is kept |
| HeaderStore.HeaderDB.DeleteAfter | chain/headers.go:231-258 | headers above the height leave the bucket, while cached ones stay readable |
| HeaderStore.HeaderDB.GetHeaderOf | chain/headers.go:265-289 | an answer was put under that hash; without one, whatever was put there has yet to reach the disk |
| HeaderStore.HeaderDB.GetBestHeader | chain/headers.go:373-396 | the best header in memory, or else the tip on disk; either was put as the best once |
| HeaderStore.HeaderDB.GetHeaderByHeight | chain/headers.go:335-371 | the cached answer, or the best header's ancestor at exactly that height, or an error |
| HeaderStore.HeaderDB.InitializeCache | chain/headers.go:456-473 | the cache ends with the tip and, if stored, its parent, and with no other header |
| Codec.RecordDecodes | chain/headers.go:487-529 | every storable header is read back from its 116 bytes as it was |
| Codec.RecordEncodes | chain/headers.go:487-529 | every string of 116 bytes is the record of the header it decodes to |
| Codec.RecordPadding | chain/headers.go:504-529 | reading fails exactly up to 84 bytes; shorter work reads as padded with zeros, longer input is cut |
| Codec.RecordLayout | chain/headers.go:487-502 | where each field lies: the header little-endian as on the wire, then 4 bytes of height and 32 of work, highest first |
| WaitingDb.ScanSound | alliance/db.go:145-195 | a scan takes only eligible proofs, each once, and fails only on a value that does not decode |
| WaitingDb.ScanComplete | alliance/db.go:160-169 | it leaves nothing eligible unless the limit was passed, passes it by its last key alone, and takes something whenever something is eligible |
| WaitingDb.RoundsDrain | alliance/db.go:145-195 | as many scans as there are eligible proofs leave exactly the proofs above the height, for any limit and any order |
| WaitingDb.WaitingDB.GetUnderHeightAndDelete | alliance/db.go:145-195 | the waiting map is split exactly into what is returned, each proof once and none above the height, and what stays, with none at or below it unless the limit was passed; an error changes nothing |
| WaitingDb.WaitingDB.DelIfExist | alliance/db.go:243-260 | the transaction no longer waits, and the result tells whether it did |
| WaitingDb.RetryAgreesIff | alliance/voter.go:118-154 | selection for retry and the confirmation test agree at every height exactly when blocksToWait - 1, in 32 bits, is at most the new height, so whenever 1 <= blocksToWait <= newh + 1 |
| Voter.StepKeeps | alliance/voter.go:47-135 | no step of either loop or of a goroutine breaks the invariant of the pipeline |
| Voter.VotesAreVerified | alliance/voter.go:47-95 | in every interleaving each vote was cast for a proof that, when taken from the channel, had no vote yet, a known best block deep enough above it, and passed every check |
| Voter.DroppedIff | alliance/voter.go:70-92 | a transaction is dropped exactly if a proof of it came after its vote, or while the best block was unknown, or deep enough but unsound, or its vote failed for another reason than the connection |
| Voter.WaitingWasShort | alliance/voter.go:54-69 | every proof that waits, is about to, or is on its way back, was short of confirmations when it was taken from the channel |
| Voter.ReceivedProofs | alliance/voter.go:52-80 | a proof that passes is voted for next, one that is short is parked |
| Voter.VoteLeads | alliance/voter.go:80-103 | an accepted vote is counted and its transaction marked and freed from waiting; one that could not be posted is sent again |
| Voter.ParkedLeads | alliance/voter.go:56-68 | a parked proof comes to wait unless its transaction waits already, and then that one stays |
| Voter.RetryLeads | alliance/voter.go:117-133 | a new height takes proofs out of the database, none above the height, and takes some if there are any |
| Voter.ResendLeads | alliance/voter.go:126-130 | what was taken out is sent again in order |
| Voter.AtMostOneVote | alliance/voter.go:80-95 | in every interleaving a transaction gets at most one successful vote |
| Voter.NoProofLost | alliance/voter.go:47-135 | until a transaction is voted for or dropped, some proof of it is in a channel, a goroutine, in hand, on its way back or waiting |
| Voter.VotedWaitsIff | alliance/voter.go:57-68 | from any state of the pipeline, a voted transaction comes to wait in some continuation exactly when it waits now or a goroutine still holds a proof of it |
| Voter.VotedMayStillWait | alliance/voter.go:57-68 | a proof parked late can wait in the database after its transaction was voted for |
| Observer.CapturedEach | alliance/alliaob.go:104-163 | what is captured is filtered event by event, in order |
| Observer.ChannelsEach | alliance/alliaob.go:104-163 | and so is what goes to each channel |
| Observer.ScannedOnceIff | alliance/alliaob.go:66-93 | every height from the first top to the last is scanned exactly once, in ascending order, exactly when the node's height does not fall |
| Observer.FallingHeightRepeats | alliance/alliaob.go:66-93 | if it falls and rises again, a height is scanned twice |
| Observer.RestartExact | alliance/alliaob.go:46-49 | a restart above which nothing was captured neither skips nor repeats an event |
| Observer.Observer.Restart | alliance/alliaob.go:46-49 | a scan starts at the greater of the saved height and the checkpoint |
| Observer.Observer.CheckEvents | alliance/alliaob.go:104-163 | every proof and transaction of the block goes to its channel, in order, and is counted |
| Observer.Observer.ScanUpTo | alliance/alliaob.go:69-86 | each block above the top is checked once despite failed requests |
| Observer.Observer.OnTick | alliance/alliaob.go:56-99 | the height is saved exactly if something was captured or it lies on the circle, and saving succeeds |
| Observer.Observer.Listen | alliance/alliaob.go:44-102 | at tick boundaries nothing was captured between the restart height and the top, if heights do not fall and saving succeeds |
| WireProtocol.ChoiceIsGreatest | netserv/wireserv.go:189-210 | in any order of the walk the choice is a candidate of greatest reported height, none only if no candidate is above zero |
| WireProtocol.StartSyncPicksGreatest | netserv/wireserv.go:175-240 | looking for a sync peer ends with such a candidate, asked for headers if the best one is over ninety minutes old and else for blocks, or leaves the old one when there is none; who reported less than the best height is no candidate any more |
| WireProtocol.HeightZeroNeverChosen | netserv/wireserv.go:194-209 | peers that report height 0 are never chosen |
| WireProtocol.RunSound | netserv/wireserv.go:354-454 | over every run the sync peer is nil or known, and off regtest a peer's committed merkle blocks never exceed the getdata messages sent to it for them |
| WireProtocol.CommitsAreGated | netserv/wireserv.go:293-361 | only a known sender can change the store, and while not current only the sync peer |
| WireAnswers.HeadersAnswer | netserv/wireserv.go:293-350 | of the sync peer, exactly the headers before the first one not ninety minutes old are committed, in order, and answered by one message: blocks are asked for if one was left, goodbye is said if two failed, else more headers are asked for; another sender is sent away |
| WireAnswers.NewPeerAnswer | netserv/wireserv.go:135-146 | a search for a sync peer follows exactly if there is none and the chain is not current |
| WireAnswers.DonePeerAnswer | netserv/wireserv.go:263-289 | a search follows exactly if the sync peer was lost and the chain is not current; nothing else but what belonged to the peer changes |
| WireAnswers.MerkleBlockAdmitted | netserv/wireserv.go:354-393 | a merkle block has its header committed exactly once, first of all, exactly if it was asked for by a permitted sender; otherwise its sender is sent away, or ignored while the chain is behind |
| WireAnswers.ScoreAnswer | netserv/wireserv.go:399-425 | the sender's score rises by one for a header that commits, falls by one for an orphan while the chain is behind, and no other score changes |
| WireAnswers.MerkleBlockReplies | netserv/wireserv.go:394-454 | what is sent after it: a restart or goodbye for an orphan, the next queued block or more blocks for a new block while the chain is behind |
| WireAnswers.InvAnswer | netserv/wireserv.go:459-550 | exactly the blocks wanted join the queue, once each and in order, its head is asked for, and the announcement is noted |
| WireService.WireService.Sync | netserv/wireserv.go:175-241 | without a wanted peer a greatest candidate becomes sync peer, or nothing but candidate flags changes; requests and commits stay accounted for, and nothing is committed |
| WireService.WireService.PickPeer | netserv/wireserv.go:189-210 | one walk drops lagging candidates and finds the choice shown to be greatest |
| WireService.WireService.HandleNewPeer | netserv/wireserv.go:135-146 | a new peer is known with nothing requested of it, nobody else's requests change, commits stay covered by requests, and nothing is committed |
| WireService.WireService.HandleDonePeer | netserv/wireserv.go:263-289 | a lost peer is forgotten, also as the sync peer, commits stay covered by requests, and nothing is committed |
| WireService.WireService.HandleHeaders | netserv/wireserv.go:293-350 | headers of the sync peer are committed while old enough, then the one reply the branch calls for; only a known sync peer's headers are, and merkle commits stay covered by requests |
| WireService.WireService.HandleMerkleBlock | netserv/wireserv.go:354-454 | a commit takes the request it answers, so commits stay covered by requests, and only a known sender that is sync peer or meets a current chain causes one |
| WireService.WireService.HandleInv | netserv/wireserv.go:459-550 | announced blocks join the queue and its first is asked for, commits stay covered by requests, and nothing is committed |

## Left out

- Hashing, signatures, scripts, merkle proofs and transaction decoding: a header's hash is a parameter, and in `Voter` the checks of verify after the confirmation test are one input.
- NewBlockchain on an existing store: only a store without a tip is modelled, where it puts the checkpoint.
- Blockchain.Blockchain.RollbackTo: the class reads the bucket alone (`TwoLevel.RollbackAgreesIff` has the cache and the pending writes too); the walk is capped at a billion steps as in the code, and the contract speaks of tips less than that above the root.
- TwoLevel.StepAgreesIff: asks that lookups find what is pending; `Freshness.FreshReadable` derives that from the puts of a run, and `SlowDisk.OneTooMany` is a run without it.
- TwoLevel.RollbackAgreesIff: asks the same; its walk has no cap of a billion steps, a walk that would climb ends, which no chain of unit steps meets, and it deletes above the height of the record it stops at, which for a checkpoint is the built-in height.
- TwoLevel.RunAgreesIff: asks the same of every point of the run; `Freshness.RunFollowsIff` is the form with a condition on the puts.
- SlowDisk.OneTooMany: its line of headers has 2016, enough for caches of up to about 4000.
- Crash.DiskIsEarlierRun: runs without rollbacks; what a rollback leaves on disk is `Crash.RollbackUnsettlesTip`.
- HeaderCache.RetentionTight: a cache of more than about eight billion keys would outnumber the heights there are.
- Runs.RunOpsInvariant: lookups read the bucket alone; `Freshness.RunFollowsIff` and `Freshness.RunOverReads` say when the same holds over the cache and the pending writes.
- Heights of 2^31 and more: the 32-bit wrap of a height is excluded by `HasRoom`; the code's own counters would fail there too.
- Targets that are not positive as the old target of an adjustment: stored headers never have them.
- HeaderStore.HeaderDB.GetHeaderByHeight: asks that heights step by one along stored links, which `TwoLevel.AgreementReads` provides while the store is in step with the chain.
- Locks, and reads that interleave with a commit: each operation of the chain is one step, as its lock makes it.
- Prune, Print, GetNPrevBlockHashes and other queries that only repeat the walks shown here.
- Starting and stopping the loops: one Vote loop and one WaitingRetry loop run, and database calls succeed.
- Channel capacities: a send may happen at any later time, which covers every capacity.
- The states a peer object keeps by itself: reported heights are inputs, and updates of them are events.
- Parsing of alliance-chain notifications and of JSON: an event is a proof, a transaction to sign, or neither.
- Peers, tor, rest, wallet, configuration and logging: wiring without an invariant of its own.
