# Verification of dcrlibwallet's scanning, storage and money machinery

This project models the parts of dcrlibwallet whose correctness depends on its own loops and shared
state, and proves what they promise for every input, every interleaving and every reachable state.
`dafny verify dfyconfig.toml` checks all of it.

| module | what it models |
|---|---|
| `SpvFilter`, `SpvBackend` | the precise wallet filter, one pass of it over a block, and the two compact-filter scans that fetch only matching blocks and restart when a block adds filter data |
| `CatchUp`, `PeerSlots` | the SPV syncer's catch-up section and its outbound peer slots, as interleaved atomic steps |
| `TxRequests` | answering a peer's request for transactions, with in-place deletion from the slice being ranged over |
| `ByteKeys`, `BucketTree`, `BucketListing`, `BadgerBucket`, `BadgerCursor` | nested buckets laid out in one flat ordered store |
| `TicketBuyer` | the interval and expiry schedule of the automatic ticket buyer |
| `UniformPrng`, `FeePayment`, `FeeRegistry` | the unbiased generator, the VSP fee transaction and its delay, and the registry of fee payments |
| `CustomTx` | building a transaction from chosen inputs |
| `TxIndex`, `TxPages`, `TxListing`, `StakingCounts` | the transaction index, listing across wallets, and the filters and ticket counts |

Methods with loops and changed state follow the source's loops and fields; each is proved against a
function on values, and the promises are lemmas about those functions. An `if *` stands for an error or
a cancelled context that may occur at that point.

## What is taken from libraries

- A version 2 block filter (DCP0005) has no false negatives: if a block commits to a script in the data
  tested, the filter matches. False positives are unrestricted.
- A peer's blocks pass the Merkle root validation only if they are the blocks asked for; a peer may fail
  after delivering some of them.
- Badger is an ordered map with iteration over a snapshot, and moving an exhausted iterator leaves it exhausted.
- storm is a map from hash to record, and sorts before it skips and limits. Its index on `TicketSpentHash`
  (types.go:258) is unique: a save of a second spender of the same ticket, which a reorganization can bring
  about, fails in the source, where the model saves it. What is stated of a successful pass is not affected.
- A transaction carries its hash, its stake type and the addresses extracted from its scripts.
- Serialized sizes, relay fees and dust limits are arbitrary non-negative functions, and address decoding
  is an arbitrary partial function.
- The ChaCha20 keystream is an arbitrary finite byte sequence; a draw past its end yields no value.

The scans are proved for any block scan that meets the conditions `Sound` and `NeverAddsWithoutMatch` of
`SpvBackend`, so that the restart branch matters; `ScanBlockIsSound` shows that the scan of spv/rescan.go,
which never adds filter data, meets both, and `RescanWallet` uses it.

## Where the code does not do what one would expect

Each of these has a proof of what happens, and where a promise fails, the exact condition under which it holds.

- A watched address extracted from an output whose script is not the payment script of that address can be
  paid in a block that no filter match points to (`SpvFilter.NonStandardOutputIsMissed`); skipping is safe
  if and only if the block commits to the payment scripts of its addresses (`SpvFilter.SkippingIsSafeIff`).
- Flat keys of different entries can coincide. Every bucket operation is the tree's operation if and only if
  no other entry has the flat key (and no entries lose their bucket); names of which none is a prefix of a
  sibling's rule that out (`BucketTree.WriteIsFaithfulIff`, `BucketTree.DeleteIsFaithfulIff`).
- `Put` and `Delete` accept the name of a nested bucket and leave its entries without it.
- The one-byte prefix length overflows at 256 bytes; a listing is exact if and only if the byte still tells
  direct from other entries (`BucketListing.ListingIsExactIff`).
- Seeking the empty key in a top-level bucket reports the bucket's own entry (`BadgerCursor.OwnEntryMarkedIff`).
- A reorganization inside the re-indexed six blocks that drops a transaction leaves its record in the index
  (`TxIndex.IncrementalIsFullIff`, `TxIndex.DroppedTransactionStaysIndexed`).
- A request that names a hash twice can run the deleting loop out of bounds (`TxRequests.RepeatedHashPanics`);
  `TxRequests.StopsIff` says exactly when.
- With an offset, each wallet skips that many of its own transactions (`TxListing.OffsetLosesTransactions`);
  `TxListing.MergedPageIsPageIff` says exactly when the page is right all the same.
- A purchase after a switch to a lower tip can cross a price change (`TicketBuyer.LowerTipCrossesInterval`);
  after a skipped tip it can have no block at all (`TicketBuyer.LowerTipAfterSkipHasNoRange`).
  `TicketBuyer.WellTimedIff` says exactly when it is well timed.
- A restored fee payment has no address; when its fee transaction is dropped, making a new one panics
  (`FeePayment.Payment.RestoredPaymentPanics`), and `FeePayment.Payment.MakeFeeTx` says exactly when.
- A fee transaction whose signing failed passes for a finished one on the next call
  (`FeePayment.Payment.UnsignedTransactionPassesForFinished`); a successful call leaves the payment recorded
  if and only if it was recorded before or had no outputs yet (`FeePayment.Payment.MakeFeeTx`).
- Removing a fee payment removes whichever payment its ticket has by then (`FeeRegistry.RemovalHitsSuccessor`),
  which is harmless if and only if that is itself or none (`FeeRegistry.RemovalSparesOthersIff`).
- `Uint32n(0)` returns 0, although its comment promises a value in [0,n) (`UniformPrng.Source.Uint32n`).
- `next` bounds the delay of an immature ticket by the blocks until its expiry, not until it is live
  (`FeePayment.JitterIsUntilLiveIff`).
- In the catch-up section a later wallet's success hides an earlier wallet's failure
  (`CatchUp.LaterSuccessHidesFailure`): the wallet finished last decides (`CatchUp.LastWalletDecides`).
- The query and the in-memory filter disagree on every transaction for a code that is not a filter code
  (`StakingCounts.FiltersAgreeIff`), an unmined ticket counts as immature too while the chain is shorter than
  the ticket maturity (`StakingCounts.PartitionIff`), and a spent ticket ends up reported as expired
  (`StakingCounts.SpentTicketExpires`).

## Model

| member | source | states |
|---|---|---|
| SpvFilter.MatchedExactly | spv/rescan.go:22-78 | the matches of one pass are at strictly increasing positions, and a position is matched exactly when its transaction pays a watched address or has a spending input among the outpoints watched before it |
| SpvFilter.SpendingInputsIff | spv/rescan.go:24-47 | the inputs looked at are exactly those of transactions other than the regular-typed one at the front of its tree, without the first input of a stake-tree vote |
| SpvFilter.ScanFindsExactly | spv/rescan.go:22-89 | on the block itself: a scan finds a transaction if and only if it pays a watched address or has such an input spending an outpoint watched at the start or paid to a watched address by a transaction scanned before it |
| SpvFilter.WatchedAtIff | spv/rescan.go:54-76 | the outpoints watched at any point of the scan are exactly those |
| SpvFilter.PassKeepsCoverage | spv/rescan.go:22-78 | one pass keeps every watched address and outpoint represented by a script of the filter data |
| SpvFilter.ScanKeepsCoverage | spv/rescan.go:83-89 | scanning a block, stake tree first, keeps that coverage |
| SpvFilter.PassMissesNothing | spv/rescan.go:22-78 | a pass over transactions that commit to no script of the filter data matches nothing and adds nothing |
| SpvFilter.UncommittedBlockIsIrrelevant | spv/rescan.go:83-89 | a block that commits to the payment scripts of its addresses and to no script of the filter data can be skipped: its scan changes and finds nothing |
| SpvFilter.SkippingIsSafeIff | spv/backend.go:291-296 | for every block: skipping it when no committed script is in the filter data is safe for every covered filter if and only if it commits to the payment script of every address extracted from it |
| SpvFilter.CoverageIsKeptIff | spv/rescan.go:54-76 | for every block: its scan keeps every covered filter covered if and only if each address extracted from an output is paid by that output's script |
| SpvFilter.NonStandardOutputIsMissed | spv/rescan.go:54-76 | an input where skipping fails: a payment to a watched address that no filter match points to |
| SpvFilter.EveryReachableFilterIsCovered | spv/backend.go:107-129 | coverage holds after every sequence of filter loads, whose addresses cover their outpoints, and block scans |
| SpvFilter.LoadedWatches | spv/backend.go:113-129 | after a load exactly the addresses, outpoints and payment scripts passed are watched, and those before unless reloading |
| SpvFilter.KeptIsMatched | spv/rescan.go:93-118 | filtering mempool transactions keeps what the later pass over their block matches, when none spends an output of one before it |
| SpvBackend.WalletBackend.LoadTxFilter | spv/backend.go:113-129 | the new filter as a function of the old one and the arguments, and that it is covered |
| SpvBackend.WalletBackend.CheckOutputs | spv/rescan.go:54-76 | exactly the outpoints of outputs paying a watched address are added, and whether there are any is reported |
| SpvBackend.WalletBackend.CheckInputs | spv/rescan.go:43-52 | whether some spending input is a watched outpoint |
| SpvBackend.WalletBackend.RescanCheckTransactions | spv/rescan.go:22-78 | the loops append exactly the relevant transactions and leave exactly the reference filter |
| SpvBackend.WalletBackend.RescanBlock | spv/rescan.go:83-89 | one block scan is the reference scan of that block, and finds exactly the transactions that pay a watched address or spend an outpoint watched by then |
| SpvBackend.WalletBackend.WatchesTx | spv/rescan.go:100-114 | the nested searches decide whether the transaction spends a watched outpoint or pays a watched address |
| SpvBackend.WalletBackend.FilterRelevant | spv/rescan.go:93-118 | filtering in place leaves exactly the relevant transactions of the original slice, in order, at its front, and the rest untouched |
| SpvBackend.SavesGrow | spv/backend.go:291-317 | the saves of a shorter scan are a prefix of those of a longer one |
| SpvBackend.SavesExactly | spv/backend.go:291-317 | the saves are those of the blocks with matches, in chain order, each under its own hash |
| SpvBackend.ScanBlockIsSound | spv/rescan.go:22-89 | the block scan meets the conditions the two filter loops rely on |
| SpvBackend.TestFilters | spv/backend.go:206-240 | whatever order the workers report in, the hits are exactly the unfetched blocks whose filter matches, once each |
| SpvBackend.FetchBlocks | spv/backend.go:242-289 | blocks are filled in only with the blocks asked for, through peers that fail part way; success leaves no hit unfetched |
| SpvBackend.RoundRulesOut | spv/backend.go:206-289 | testing only the newly added data rules out every unfetched block for all data |
| SpvBackend.BlockStep | spv/backend.go:291-317 | a skipped block changes nothing, and after a scanned one the later blocks stay ruled out for all data but what it added |
| SpvBackend.WalletBackend.ScanFetched | spv/backend.go:291-317 | scanning from idx gives the reference saves and filter up to where it stops, which is past idx |
| SpvBackend.WalletBackend.Rescan | spv/backend.go:176-322 | success makes exactly the saves, in order, and leaves exactly the filter of scanning every block; failure has made a prefix of the saves; rounds start at strictly later blocks |
| SpvBackend.WalletBackend.RescanWallet | spv/backend.go:176-322 | the same for the actual block scan, from any covered filter |
| SpvBackend.CollectNext | spv/sync.go:1035-1047 | recording one block's matches extends the map by exactly that block |
| SpvBackend.WalletBackend.CollectFetched | spv/sync.go:1035-1047 | the scanning loop records the reference matches of every block it passes |
| SpvBackend.WalletBackend.ScanChain | spv/sync.go:947-1051 | every block of a chain with distinct hashes gets the matches of the in-order scan of all blocks, whichever blocks were at hand, with at most one filter round per block |
| CatchUp.StepKeepsInv | spv/sync.go:1464-1533 | every atomic step of any peer keeps the invariant on lock, flags, loaded filters and notifications |
| CatchUp.EveryRunIsSafe | spv/sync.go:1464-1533 | in every interleaving at most one peer is in the section, the lock is held exactly then, synced wallets have loaded filters, and each wallet's notifications alternate starting with true |
| CatchUp.SectionProgress | spv/sync.go:1464-1533 | every step of the peer inside, whatever its calls return, comes closer to leaving, and leaving releases the lock |
| CatchUp.SyncedIsCaughtUp | spv/sync.go:1467-1524 | in every interleaving a wallet is flagged synced only by a peer that was told it needs no rescan, or that has since discovered its addresses, loaded its filters and rescanned it, in this order and with success |
| CatchUp.UnsyncedWhileCatchingUp | spv/sync.go:1489-1523 | a wallet is not flagged synced while it is being caught up |
| CatchUp.EveryWalletIsTried | spv/sync.go:1465-1526 | a peer that has left the section has worked on every wallet exactly once |
| CatchUp.LastWalletDecides | spv/sync.go:1465-1532 | in every interleaving the error a peer returns from the section is that of the wallet it finished last |
| CatchUp.LaterSuccessHidesFailure | spv/sync.go:1465-1532 | a run in which a wallet fails, a later one succeeds, and the peer leaves without error |
| CatchUp.WorkKeepsTold | spv/sync.go:156-208 | a swap of the synced flag and its notification keep the last notification equal to the flag |
| PeerSlots.StepKeepsInv | spv/sync.go:522-599 | every step keeps both maps equal to the addresses being worked on and the slots equal to their owners |
| PeerSlots.CandidateKeepsInv | spv/sync.go:433-468 | a candidate is an address no goroutine works on |
| PeerSlots.EveryRunIsSafe | spv/sync.go:433-599 | in every interleaving the maps are disjoint, every entry has exactly one owner, and together they never exceed the slots taken, at most eight |
| TxRequests.RemoveAt | spv/sync.go:651 | the deletion by append shifts the tail in place and leaves the cell beyond the shorter slice as it was |
| TxRequests.DeleteRanging | spv/sync.go:649-653 | one range over the old slice header runs out of bounds exactly when the last hash is sought and occurs earlier; otherwise it deletes only that hash, and some occurrence if there is one |
| TxRequests.DeleteFound | spv/sync.go:648-654 | all ranges for one wallet run out of bounds exactly when that wallet stores the last hash and it occurs twice; otherwise they leave exactly what the wallet lacks, in order, repeated hashes included |
| TxRequests.GetTransactionsByHashes | spv/sync.go:628-666 | for any wallet order the outcome, including panic and failure, is that of asking the wallets in turn for what is missing |
| TxRequests.ReplySplitsRequest | spv/sync.go:628-666 | every answer counts each hash exactly as often as requested, as found when some wallet stores it and as not found when none does |
| TxRequests.NotFoundInOrder | spv/sync.go:661-663 | the hashes not found keep the order of the request |
| TxRequests.FoundIsStored | spv/sync.go:636-644 | every transaction sent is one that some wallet stores under its hash |
| TxRequests.DistinctNeverPanics | spv/sync.go:648-654 | a request of pairwise distinct hashes is never deleted out of bounds |
| TxRequests.StopsIff | spv/sync.go:636-659 | for every request: the call ends without an answer exactly when some wallet, the first not to pass, is asked for something; it fails if that wallet fails and panics if that wallet stores the last hash asked for and it occurs twice |
| TxRequests.AskedForShift | spv/sync.go:646-654 | a wallet is asked for what no wallet before it stores |
| TxRequests.RepeatedHashPanics | spv/sync.go:648-654 | asking twice for one stored hash panics |
| BucketTree.Below | badgerdb/bucket.go:73-78 | a flat key that extends a bucket's prefix belongs to an entry below that bucket |
| BucketTree.FlatIsInjective | badgerdb/bucket.go:73-78 | different paths never share a flat key when no bucket name is a prefix of a sibling's name |
| BucketTree.ValidIsFaithful | badgerdb/bucket.go:73-78 | the layout of a prefix-free tree gives every flat key to one entry |
| BucketTree.ClashIsShadow | badgerdb/bucket.go:73-78 | in a prefix-free tree another entry has the flat key of an entry exactly when the names of a deeper entry of the same bucket concatenate to its name |
| BucketTree.PrefixFreeIff | badgerdb/bucket.go:73-78 | a write keeps the names prefix-free if and only if the new name clashes with no name beside it |
| BucketTree.FittingNameIsFree | badgerdb/bucket.go:73-78 | such a name shares its flat key with no entry anywhere |
| BucketTree.InsertRefines | badgerdb/bucket.go:237-253 | writing one flat entry writes one tree entry and leaves all others, in every bucket |
| BucketTree.RemoveRefines | badgerdb/bucket.go:255-269 | deleting the flat key of a leaf deletes that leaf only |
| BucketTree.WriteIsFaithfulIff | badgerdb/bucket.go:237-253 | in any faithful store a write is the tree's write, and the store stays faithful, if and only if no other entry has the flat key and no entries hang below a value |
| BucketTree.WriteIsRepresentedIff | badgerdb/bucket.go:237-253 | with prefixes below 256 bytes the store is the layout of the new tree if and only if no other entry has the flat key: a clashing write changes that entry's item |
| BucketTree.ClashingLengthsDiffer | badgerdb/bucket.go:65-71 | two entries with one flat key record different prefix lengths |
| BucketTree.DeleteIsFaithfulIff | badgerdb/bucket.go:255-269 | in any faithful store a delete is the tree's delete if and only if no other entry has the flat key and no entries are left without their bucket |
| BucketTree.LookUp | badgerdb/bucket.go:217-235 | a flat key is present exactly when the entry is or another entry has the same flat key, never both |
| BadgerBucket.Bucket.Get | badgerdb/bucket.go:217-235 | in any faithful store get is the tree's get if and only if no other entry has the flat key; bad key sizes give nothing |
| BadgerBucket.Bucket.Put | badgerdb/bucket.go:237-253 | in any faithful store put is the tree's put if and only if no other entry has the flat key and the key is not a bucket with entries; with short prefixes a clash shows in the store itself; bad key sizes change nothing |
| BadgerBucket.Bucket.Delete | badgerdb/bucket.go:255-269 | in any faithful store delete is the tree's delete, of values and of buckets, if and only if no other entry has the flat key and the key is not a bucket with entries |
| BadgerBucket.Bucket.CreateBucket | badgerdb/bucket.go:107-142 | what has the flat key decides between opening, existing and invalid; a name not in the tree gives the tree's new bucket, and a handle on it, if and only if no other entry has its flat key |
| BadgerBucket.Bucket.NestedReadWriteBucket | badgerdb/db.go:160-184 | a handle is returned exactly when the entry with the flat key is a bucket, and refers to it; it is the nested bucket unless another entry has its flat key |
| BadgerBucket.NewBucket | badgerdb/bucket.go:43-63 | a name not in the tree gives the tree's new top-level bucket, and a handle on it, if and only if no other entry has its flat key; a present key is opened unchanged |
| BadgerBucket.Bucket.ForEach | badgerdb/bucket.go:271-305 | a completed listing is exactly the bucket's direct entries, once each, in name order, if and only if the length bytes tell; a failing callback has seen a prefix |
| BadgerBucket.Iterate | badgerdb/bucket.go:276-303 | the iterator loop visits all entries marked for the prefix, in order |
| BadgerBucket.WriteRefines | badgerdb/bucket.go:237-253 | a write into a bucket is the tree's write if and only if no other entry has the flat key and no entries hang below a value |
| BadgerBucket.UnfittingNameCanBeFaithful | badgerdb/bucket.go:237-253 | a name that extends a bucket's name ends prefix-freedom although the store stays faithful |
| BadgerBucket.TopLevelRefines | badgerdb/bucket.go:43-63 | a new top-level bucket is the tree's if and only if no other entry has its flat key |
| BucketListing.OutsideHasNoPrefix | badgerdb/bucket.go:276-303 | stopping at the first key without the prefix passes over no key that has it |
| ByteKeys.FirstDifferenceDecides | badgerdb/bucket.go:279 | keys are visited in the order in which the first differing byte decides and a proper prefix comes first |
| BucketListing.MarkedIffDirect | badgerdb/bucket.go:65-71 | the length byte marks exactly the direct entries of a bucket when it tells them apart |
| BucketListing.ShortPrefixesTell | badgerdb/bucket.go:65-71 | with all prefixes below 256 bytes the length bytes tell |
| BucketListing.ListingIsExact | badgerdb/bucket.go:271-305 | in every faithful store with prefixes below 256 bytes a listing is exactly the bucket's direct entries, nothing from nested or prefix-sharing buckets |
| BucketListing.ListingIsExactIff | badgerdb/bucket.go:271-305 | in every faithful store, for prefixes of any length, a listing is exact if and only if the length bytes tell |
| BadgerCursor.Cursor.First | badgerdb/db.go:353-386 | lands on the first listed entry, or there is none |
| BadgerCursor.Cursor.Next | badgerdb/db.go:430-466 | lands on the next listed entry after the current position, or there is none, also past the last key |
| BadgerCursor.Cursor.Take | badgerdb/db.go:444-465 | skips entries of other buckets until one is listed |
| BadgerCursor.Cursor.Seek | badgerdb/db.go:519-555 | lands on the first listed entry at or after the key sought, with the empty, absent and oversized keys |
| BadgerCursor.Cursor.Walk | badgerdb/db.go:353-466 | First followed by Next ends and yields what forEach yields, in the same order |
| BadgerCursor.SeekLandsOnLeast | badgerdb/db.go:519-555 | in tree terms, the entry reported is the least one whose name is not before the key, and nothing is reported only if there is none |
| BadgerCursor.OwnEntryMarkedIff | badgerdb/bucket.go:43-63 | a bucket's own entry looks like one of its entries exactly at the top level with a short prefix |
| TicketBuyer.RescheduleIsTimely | ticket.go:400-428 | from any schedule kept so far, the schedule of a later tip lies in the interval of the block after the tip, unless the purchase is skipped |
| TicketBuyer.OnTimeIsWellTimed | ticket.go:400-428 | such a schedule leaves a non-empty minable range wholly within one price interval |
| TicketBuyer.SameInterval | ticket.go:407-409 | heights between two multiples of the window have one price |
| TicketBuyer.SkipsIff | ticket.go:411-418 | a renewing tip is skipped if and only if no block two after it or later has the price of the block after it |
| TicketBuyer.RenewedRangeIsExact | ticket.go:419-427 | a renewing tip that is not skipped lets tickets be mined in exactly the later blocks that have the price of the block after it |
| TicketBuyer.Buyer.Advance | ticket.go:397-428 | a renewing tip cancels all held purchases and any other tip none; what is left keeps a minable range after the tip |
| TicketBuyer.Buyer.Launch | ticket.go:454-480 | a launched batch is well timed and its cancel function is held |
| TicketBuyer.Buyer.ProcessTip | ticket.go:395-480 | a tip launches one batch if and only if it is not skipped and the surplus pays for a ticket, of the largest number the surplus pays for, and cancels exactly the held ones if it renews |
| TicketBuyer.Buyer.RunLoop | ticket.go:358-482 | over every run of non-decreasing tips, each purchase had a non-empty minable range in the price interval of the block after its tip, and all are cancelled in the end |
| TicketBuyer.WindowOfOneHasNoRange | ticket.go:407-427 | with a window of one block no renewing tip gives a purchase a minable range |
| TicketBuyer.WindowSufficesIff | ticket.go:407-427 | every renewing tip that is not skipped starts well-timed purchases if and only if the window has at least two blocks |
| TicketBuyer.WellTimedIff | ticket.go:400-428 | for a tip of any height and whatever expiry the schedule holds, purchases are well timed if and only if the expiry leaves a block after the split transaction and does not lie beyond the price interval of the block after the tip |
| TicketBuyer.LowerTipCrossesInterval | ticket.go:400-428 | a switch to a lower tip whose purchases cross a price change |
| TicketBuyer.LowerTipAfterSkipHasNoRange | ticket.go:415-418 | a skipped tip leaves the old expiry, and a switch to a lower tip buys with it, without a block to be mined in |
| TicketBuyer.LowerTipAfterSkipCanBeWellTimed | ticket.go:415-418 | an expiry kept over a skipped tip that suits a switch to a lower tip |
| UniformPrng.LowBits | internal/uniformprng/prng.go:56-56 | masking with k one bits is the remainder modulo 2^k |
| UniformPrng.MaskIs | internal/uniformprng/prng.go:54-54 | shifting all ones by the leading zeros of n leaves as many ones as n has bits |
| UniformPrng.EveryValueEquallyLikely | internal/uniformprng/prng.go:48-61 | every value below n is the image of the same number of source words |
| UniformPrng.ByteOfWord | internal/uniformprng/prng.go:45 | byte i of a drawn word, from the least significant one, is byte i of the keystream block |
| UniformPrng.BlockRoundTrip | internal/uniformprng/prng.go:45 | blocks and words of a size correspond one to one |
| UniformPrng.WordRoundTrip | internal/uniformprng/prng.go:45 | every word of a size is that of some block |
| UniformPrng.EveryValueFromEquallyManyBlocks | internal/uniformprng/prng.go:48-89 | every value below n comes from the same number of keystream blocks |
| UniformPrng.MostWordsAccepted | internal/uniformprng/prng.go:48-61 | more than half of all source words are accepted |
| UniformPrng.TopBitIsMasked | internal/uniformprng/prng.go:65-89 | clearing the sign bit first does not change what the mask yields |
| UniformPrng.Source.Draw | internal/uniformprng/prng.go:39-46 | the buffer is overwritten with the next keystream bytes, read as a little-endian word |
| UniformPrng.Source.DrawBelow | internal/uniformprng/prng.go:55-60 | the result is that of the first accepted word of the keystream, all earlier ones being rejected |
| UniformPrng.Source.Uint32n | internal/uniformprng/prng.go:49-61 | the value is below n and is the low bits of the first 32-bit word where they are; n below 2 gives 0 and draws nothing |
| UniformPrng.Source.Int63n | internal/uniformprng/prng.go:77-89 | the same for 64-bit words, and a panic for n <= 0 |
| FeePayment.Payment.ReceiveFeeAddress | internal/vsp/feepayment.go:425-442 | a fee above the policy's maximum is refused and changes nothing |
| FeePayment.Payment.BuildOutputs | internal/vsp/feepayment.go:519-566 | outputs are written exactly when inputs cover the fee and both scripts exist: the fee once, and the rest as change in either position unless it is dust |
| FeePayment.Payment.CompleteFeeTx | internal/vsp/feepayment.go:484-605 | success pays the agreed fee, never above the maximum, and records the transaction; failure keeps the payment's transaction; it panics if and only if the payment was restored with fee -1, has no address, and its inputs are settled with a total of at least -1 |
| FeePayment.Payment.MakeFeeTx | internal/vsp/feepayment.go:453-605 | a transaction with outputs is kept untouched and handed to the caller; otherwise success builds one that pays the fee script exactly the agreed fee, at most the maximum, and the rest to the change script; the panic of a restored payment, exactly |
| FeePayment.Payment.Restored | internal/vsp/feepayment.go:278-291 | a restored payment holds its recorded transaction, no address, and fee -1 unless paid or confirmed |
| FeePayment.Payment.RestoredPaymentPanics | internal/vsp/feepayment.go:803-807 | a restored payment whose fee transaction is dropped panics when it makes a new one |
| FeePayment.FeesAreBounded | internal/vsp/feepayment.go:545-566 | outputs never exceed inputs, the miner fee is the size-based fee with change and below that plus the dust limit without |
| FeePayment.FeeTxSplitsInputs | internal/vsp/feepayment.go:536-566 | the fee script is paid exactly the fee, every other output pays the change script, together the inputs less fee and size fee, and there is one exactly when that is not dust |
| FeePayment.Payment.UnsignedTransactionPassesForFinished | internal/vsp/feepayment.go:477-480 | after failed signing the second call succeeds although nothing is signed or recorded |
| FeePayment.JitterIsPositive | internal/vsp/feepayment.go:323-348 | for the heights a payment can record, the delay bound is positive and at most one hour |
| FeePayment.JitterIsUntilLiveIff | internal/vsp/feepayment.go:328-340 | the delay bound of an immature ticket is the one until it is live if and only if it expires then or the hour caps both |
| FeePayment.NextDelay | internal/vsp/feepayment.go:323-348 | the delay drawn lies in [0, one hour), and below the time to expiry, five minutes or two minutes for an immature, live or other ticket; the generator does not panic on its bound |
| FeeRegistry.StepKeepsInv | internal/vsp/feepayment.go:172-321 | every step of calls, removals, timers and schedules keeps the registry, call and job invariants |
| FeeRegistry.EveryRunIsSafe | internal/vsp/feepayment.go:172-321 | in every interleaving a registered job was inserted for its ticket, calls return inserted jobs, only those get the initial schedule, once, and a job has at most one pending timer |
| FeeRegistry.LoserReturnsRegisteredJob | internal/vsp/feepayment.go:192-205 | a call that loses the insertion race returns the registered job and its own job is left without timer |
| FeeRegistry.ScheduledIsPending | internal/vsp/feepayment.go:305-321 | in every run scheduling leaves exactly the new timer pending and stopping leaves none |
| FeeRegistry.FirstTimerIsPending | internal/vsp/feepayment.go:203-207 | a call that inserted its job leaves it with exactly its first timer |
| FeeRegistry.WholeCallRegisters | internal/vsp/feepayment.go:182-208 | an undisturbed call for an unregistered ticket registers one new job |
| FeeRegistry.RemovalHitsSuccessor | internal/vsp/feepayment.go:172-178 | removing a job again takes its successor out of the registry |
| FeeRegistry.RemovalSparesOthersIff | internal/vsp/feepayment.go:172-178 | removing a job leaves every other job registered if and only if its ticket has no job or has this one |
| CustomTx.ParseOutputs | utxo.go:33-63 | destinations are accepted exactly when each is payable and no second maximum-amount recipient appears; then the outputs, their total and the recipient are those requested |
| CustomTx.AcceptedIff | utxo.go:38-51 | a request is accepted if and only if every amount is in range, every address to be paid one decodes, and no maximum amount comes after one that names an address |
| CustomTx.RequestedExactly | utxo.go:53-60 | the sends are one output per destination with an amount, in order, of that amount and to that address |
| CustomTx.RandomizeLast | utxo.go:156-164 | moving the change output keeps the outputs as a multiset |
| CustomTx.Fund | utxo.go:101-140 | failure exactly when inputs do not cover sends and fee or the change script is too long; otherwise all sends are kept and the remainder added unless it is dust |
| CustomTx.NewUnsignedTx | utxo.go:81-154 | on the request itself: the remainder goes to the destination of the maximum amount, else to the change destination, else to the internal address; each outcome, error or transaction, if and only if its condition holds |
| CustomTx.BuildTx | utxo.go:81-154 | the steps of the call lead to the outcome that the recipient noted and the change address give |
| CustomTx.RecipientIs | utxo.go:43-50 | of an accepted request the recipient noted is the one maximum-amount destination that names an address |
| CustomTx.BuiltTransactionBalances | utxo.go:120-140 | inputs are outputs plus a fee of at least the size-based fee, the excess zero or dust; sends are a sub-multiset with at most one more output |
| CustomTx.TotalIsMultisetSum | utxo.go:156-164 | the total of outputs depends on their multiset only |
| CustomTx.OneRecipient | utxo.go:43-49 | with non-empty addresses a second maximum-amount destination is always refused |
| TxIndex.ApplyAllGivesLast | txindex.go:14-34 | after a pass a record is the one written last by a transaction or the spender of that ticket, and unwritten records are unchanged |
| TxIndex.LaterWriteDiffers | txparser.go:78-108 | a record written by a later part of a chain always differs from the one an earlier part wrote |
| TxIndex.IncrementalIsFullIff | txindex.go:58-94 | with equal chains below the start point, incremental indexing equals full indexing if and only if every record the old blocks wrote from there on is written again |
| TxIndex.IncrementalIsFullWhenChainGrows | txindex.go:58-94 | a chain that has only grown meets that condition |
| TxIndex.DroppedTransactionStaysIndexed | walletdata/read.go:8-25 | a dropped transaction within the window breaks it |
| TxIndex.FullIndexLinksTickets | txparser.go:78-108 | a full index holds every mined transaction with its height, time and spent ticket, and a ticket names a spender exactly when the chain has one, the right one |
| TxIndex.DecodedReward | txparser.go:84-103 | a vote's reward is what the wallet got back less what it put into the ticket, and its days are the whole days between the two |
| TxIndex.OwnedAmounts | txparser.go:87-100 | amounts of the wallet's own accounts count in full, others not at all |
| TxIndex.WalletData.SaveOrUpdate | walletdata/save.go:15-34 | one record is replaced or added, and whether it replaced one is reported |
| TxIndex.WalletData.OwnedAmount | txparser.go:87-100 | the loop adds the amounts of the wallet's own accounts only |
| TxIndex.WalletData.DecodeTransaction | txparser.go:12-111 | the decoded record, the ticket's link to its spender, and failure exactly when the ticket is unknown |
| TxIndex.WalletData.IndexBlock | txindex.go:14-34 | one block applies its transactions in order |
| TxIndex.WalletData.IndexRange | txindex.go:14-56 | a completed range applies every block from its start to the tip |
| TxIndex.WalletData.IndexTransactions | txindex.go:9-85 | a successful pass applies all blocks from the start point to the tip; the index point ends at the tip in any case |
| TxIndex.WalletData.IndexNewBlocks | txindex.go:9-85 | from a complete index of the old chain a successful pass gives the complete index of the new one if and only if no re-indexed record was left behind |
| TxIndex.WalletData.ReindexTransactions | txindex.go:87-94 | success leaves exactly the full index |
| TxListing.Read | walletdata/read.go:30-49 | one wallet's page at an offset: what follows the first `offset` matching transactions of some sorted listing, up to a positive limit |
| TxListing.FilteredCounts | walletdata/read.go:31 | the transactions listed are those that match the query, each as often as it is stored |
| TxListing.GetTransactions | transactions.go:126-150 | the merged page is the first page of what the wallets' offsets leave, with timestamps falling if newest first and rising otherwise; with no offset it is the first page of all wallets, for both directions and any limit |
| TxListing.MergedPageIsPageIff | transactions.go:126-150 | with an offset the merged page is the page at that offset of all wallets together if and only if, on the wallets, offset and limit: nothing is left and nothing lay beyond the offset, or the wallets skip at most `offset` transactions up to any key at which what is left does not fill the page, and no more in all unless the page is cut off |
| TxListing.OffsetLosesTransactions | transactions.go:126-150 | two wallets with one transaction each lose one at offset 1 |
| TxListing.SkippedCounts | walletdata/read.go:32-34 | how many transactions up to any key the wallets skip together |
| TxPages.MergedPagesArePage | transactions.go:126-150 | that holds whichever sorted order of the collected pages is cut off |
| TxPages.LeftOutIsLater | transactions.go:143-145 | what a wallet's page leaves out comes no earlier than anything on the merged page |
| TxPages.SortedByTime | transactions.go:138-143 | newest first means falling timestamps, otherwise they rise |
| StakingCounts.FiltersAgreeIff | walletdata/filter.go:27-118 | the query and the in-memory filter agree on a transaction if and only if the code is a filter code |
| StakingCounts.CountMeetsFilter | walletdata/read.go:53-62 | the query counts exactly what the in-memory filter accepts |
| StakingCounts.CountsByType | walletdata/filter.go:70-77 | votes, revocations, tickets and staking transactions are counted by their type |
| StakingCounts.TicketCountedOnce | transactions.go:256-276 | a ticket is in exactly one of unmined, immature, live, expired and spent |
| StakingCounts.PartitionIff | transactions.go:221-283 | that holds for all tickets if and only if the best block is at least the maturity less one and the 16-bit expiry sum does not overtake the maturity |
| StakingCounts.StatusIsCategory | transactions.go:295-320 | the status of an unspent ticket is the one filter that accepts it |
| StakingCounts.SpentTicketExpires | transactions.go:303-320 | a spent ticket is reported as voted or revoked only until it would have expired |
| StakingCounts.LinkedCounts | txparser.go:78-108 | when spent tickets and their spenders refer to each other there are as many of one as of the other |
| StakingCounts.OverviewTotal | ticket.go:55-92 | the six counts plus the spent tickets are the tickets plus the votes and revocations |
| StakingCounts.StakingOverview | ticket.go:55-92 | each field counts its own filter, votes and revocations by type, and the total is the number of ticket purchases if and only if spent tickets and spenders are equally many |
| StakingCounts.StakingOverviewAll | ticket.go:94-115 | the fields add up over the wallets, and so does the total |

## Left out

- Persistent peers (`connectToPersistent`), which share the maps but not the slots.
- `dropBucket` and `DeleteTopLevelBucket`, which remove direct entries only, and `Cursor.Last`, `Cursor.Prev` and `Cursor.Delete`.
- Transaction conflicts, commits and rollbacks of Badger, and sharing of slice capacity between flat keys.
- Header fetching and chain reorganization handling, decided by code outside the repository.
- Delivery of mempool transactions to wallets; only the in-place filter is modelled.
- The synced-flag test of `Synced`, sync progress estimates and all other notifications.
- The submit, confirm and reconcile steps of a fee payment; only scheduling and removal of its timers are modelled.
- Signing, key derivation and all other cryptography.
- Several wallets in one syncer filter: each wallet has its own, and one is modelled.
- Overflow of 32-bit heights and 64-bit amounts, except the 16-bit sum of ticket maturity and expiry and the 32-bit days to vote.
- Database read and write failures of the transaction index and the counts.
- Unmined transactions in indexing, and the amounts, fees and types that decoding fills in beside the ticket data.
- `ext`, `dexclient.go`, `internal/politeia`, the loader, the configuration and the wallet wrappers, which would only add easy members.
- SpvBackend.WalletBackend.Rescan: assumes that no filter is loaded during the scan, and that a scan which adds filter data also matches, because the source looks at added data only then.
- SpvBackend.WalletBackend.ScanChain: on an error nothing is claimed about the filter but its invariant, because the source discards the matches then.
- TxIndex.WalletData.IndexTransactions: indexes nothing when the start point lies above the tip; the order of the library's iteration there is not modelled.
- PeerSlots.EveryRunIsSafe: takes the key of a network address to be its string form.
- TxIndex.WalletData.DecodeTransaction: leaves out the amounts, fees and type of the record, which are copied from the decoded transaction and take no part in linking tickets.
