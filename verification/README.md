# Verified models of QRAX Core data structures and codecs

QRAX is a node derived from Bitcoin and PIVX. This project models the parts of it whose
correctness is a statement about every run or every input, and proves those statements in
Dafny 4.11. `dafny verify dfyconfig.toml` checks everything. Nothing of the original
program was executed; the claims below are theorems about the models.

| part | files | what is proved |
|---|---|---|
| Address manager (`CAddrMan`) | `AddrMan*.dfy` | every run of its operations keeps the invariant that `Check_` looks for, and exactly when a bad clock breaks it; who wins a contested tried slot, what a reply to getaddr holds and what is remembered of an address; saving and reloading loses nothing; which files give a consistent manager |
| Coins cache (`CCoinsViewCache`) | `Coins*.dfy`, `FlagCaches.dfy` | a stack of write-back caches of any depth behaves like one flat map of coins, nullifiers and anchors, and however blocks are connected, disconnected and written out, the tip shows exactly what the blocks of the chain make of the first one |
| Partial Merkle tree (`CPartialMerkleTree`) | `Merkle.dfy`, `MerkleModel.dfy`, `MerkleTheorems.dfy`, `MerkleSizes.dfy`, `PartialMerkle.dfy`, `Bits8.dfy` | round trip through bytes, the exact size and when it exceeds the documented one, and authenticity of whatever a peer sends |
| Merkle root of a block | `MerkleRoot.dfy`, `MerkleComputation.dfy` | the constant-space computation gives the root, the branch of a transaction and the flag for duplicates; without the flag a root fixes the transactions; a branch leads to the root only from its own transaction |
| `base_uint` and compact targets | `Powers.dfy`, `Limbs.dfy`, `Arith*.dfy`, `Compact.dfy` | limb code computes the numbers it stands for; the compact form rounds down, is stable and monotone |
| `CCheckQueue` | `CheckQueue*.dfy` | every interleaving of a master and any number of workers gives right answers, never loses a wake-up, and lets the master return after as much work as there was |
| Base58 and Bech32 | `Radix*.dfy`, `Base58.dfy`, `Bech32*.dfy` | buffers suffice, codecs are inverse to each other; the Bech32 checksum is the remainder modulo the documented generator over GF(32) and detects every change of up to three symbols within 1023 |
| Block index and active chain | `Chain*.dfy` | skip pointers find the same ancestors as walking back; the chain is the tip's ancestors; a locator is logarithmic |
| Cuckoo cache | `Cuckoo*.dfy`, `BitFlags.dfy` | an insertion loses at most one element, and none when there is room; it searches along a path of displaced elements, and drops one only at the end of a path as long as the limit |
| Rolling bloom filter | `Bloom.dfy` | exactly the keys of the last two to three generations leave tags |
| Block assembler | `Assembler.dfy` | parents before children, limits respected and only what may be in a block, a block that is full when selection runs out, best score and priority first, and exactly what an early stop forgets |
| Masternode payment votes | `MnPayments.dfy` | tallies count the stored votes; a filled block satisfies them |

How the models are built. Code that updates fields in place is a class, or methods on
arrays, with the source's loops; each such method is proved against a function of the old
state, or against the property itself. What is proved about whole runs is proved about those
functions, or as a class invariant `Valid()` that the constructor establishes and every
method keeps. Hash functions, bucket placement, the Sapling tree root, the clock and random
draws are function parameters or arguments, so the theorems hold for every choice of them;
injectivity is assumed only where a row says so. The stack of coin views also assumes that
tree roots differ from each other and, for chains of blocks, from the null hash. What its views
answer is kept in ghost fields that `Valid()` ties to the layers and the database. Integers are unbounded unless a width
matters, in which case it is written out (limbs, compact form, tags, flag bits).
`Common.dfy` holds what several parts share.

Where the code and its own documentation disagree, the model follows the code:

- `src/merkleblock.h:48` bounds the flag bits by 2N-1 for N hashes. The code exceeds that for
  three transactions of which the last is selected (`BitBoundExceeded`); `BitsWithinBound`
  gives the exact condition.
- `src/merkleblock.h:32-36` guarantees at most 10 + ceil(32.25 N) bytes. A block of 1012
  transactions, all selected, takes one byte more (`SizeExceeded`); `SizeWithinBound` gives the
  exact condition, and the excess is never more than two bytes.
- `src/consensus/merkle.cpp:41` says that the computation is limited to 2^32 leaves. Its count is
  padded to a power of two and has 32 bits, so that it is safe up to 2^31 (`CountFits`); `Compute`
  is stated for those.
- `src/cuckoocache.h:395-396` says that the first swap uses the first location; the code uses
  the second (`NextLocation`).
- `AddCoin` without the overwrite flag is safe exactly when the view has no such coin
  (`AddCoinExactly`); otherwise it throws or marks the entry FRESH wrongly, and the cost of
  that is shown by `MisappliedFreshResurrects`.
- A flush carries the best block and best anchor over exactly under the condition of
  `HashesSurviveFlush`, because the parent takes the child's hashes even when they are unset;
  `LosesBestBlock` is a stack of two where they are lost. Connecting and disconnecting blocks
  always sets them first, so that a chain loses neither (`Commit`).
- The database answers that the empty Sapling tree is an anchor even after it was withdrawn
  (`DbWriteAnchorIs`, `WriteAnchorsToDb`); `FlushToDb` says which views show it again, and
  `RegainsEmptyAnchor` is a sequence of operations that ends there. No sequence of blocks does:
  the anchors of a chain are the stages of one growing tree, the empty one among them
  (`ChainNests`), so that writing out a chain is exact (`Flush`).
- Multiplying a `base_uint` by itself in place gives zero, because the product overwrites the
  operand it still reads (`Multiply`).
- `FillBlockPayee` adds nothing at height zero, so that votes for height zero can go unpaid
  (`FillBlockPayee`, `HeightZeroMayFail`).
- `Clear` of the address manager keeps the pending collisions. Reading a file over a used
  manager therefore restores the whole invariant exactly when those ids happen to fit what was
  read (`RestartExactly`, `Restart`); `StaleCollision` is a case where they do not. A fresh
  manager has none pending and is always valid after reading (`Reload`).
- `Good` at a time that is not positive, and `Attempt` at a negative one, can leave times that
  `Check_` refuses; `ApplyExactly` says exactly when, and `ImpossibleTimes` has two such runs.
  Everything else of the invariant holds whatever the clock says (`EveryRunIsSound`).
- A file that announces negative counts is read without complaint; among files with distinct
  addresses and possible times it is exactly those that leave an inconsistent manager
  (`DumpIsConsistent`); `NegativeCount` is one.
- The selection by priority returns from the middle of its loop, before the children of the
  last transaction are put back on the heap. `AddPriorityTxs` says which of the waiting are
  forgotten by that, and `ForgottenChild` is a pool of two where it happens.

## Model

| member | source | states |
|---|---|---|
| AddrManTheorems.EveryRunIsSound | src/addrman.cpp:398-472 | after every sequence of operations on a manager that starts empty, whatever the clock says: indexes mutually inverse, every slot the dictated one, counters exact, 1 to 8 references for new entries and none for tried ones, pending collisions with a filled tried slot |
| AddrManTheorems.EveryRunIsConsistent | src/addrman.cpp:398-472 | with success times above zero and attempt times not below it, every such run has the whole invariant, times included, and passes the consistency check if and only if its key is not null |
| AddrManTheorems.ApplyExactly | src/addrman.cpp:398-472 | a single operation keeps the whole invariant if and only if it is timely: any but a report of success or attempt is; those are for unknown services, for possible times, or for a success at time zero that test-before-evict puts off |
| AddrManTheorems.ImpossibleTimes | src/addrman.cpp:406-432 | after one announcement, an attempt at time minus one and a success at time zero each leave a manager that fails the check |
| AddrManTheorems.ClockedRunKeeps | src/addrman.cpp:192-615 | from any state with the whole invariant, every run with such a clock keeps it |
| AddrManTheorems.RunKeeps | src/addrman.cpp:83-327 | from any sound state every run stays sound, never reuses an id for another address and never empties a filled tried slot, whatever the clock says |
| AddrManTheorems.ApplyKeeps | src/addrman.cpp:192-615 | each single operation keeps indexes, tables, counters and collisions sound, ids and filled tried slots, at any time |
| AddrManTheorems.SizeIsExact | src/addrman.cpp:403-404 | the list of random picks has exactly as many places as there are tried and new entries together |
| AddrManTheorems.GoodMakesTried | src/addrman.cpp:192-254 | a known address reported good without test-before-evict ends up tried, in its own tried slot |
| AddrManTheorems.GoodTestsBeforeEvict | src/addrman.cpp:242-253 | with test-before-evict an occupied tried slot and both tables stay as they are and the newcomer is queued if fewer than ten wait; a free slot is taken |
| AddrManTheorems.AddLearns | src/addrman.cpp:256-327 | a new routable address is known after Add exactly when its slot was free, held a terrible entry, or one with other references |
| AddrManCollisions.ResolveSettles | src/addrman.cpp:538-588 | after all judgements each tried slot has its untouched occupant, or a newcomer that overtook an occupant which failed its test; a newcomer still waits exactly when its rival is neither proven nor failed |
| AddrManCollisions.OnlyFailedAreEvicted | src/addrman.cpp:558-573 | an occupant loses its slot only if it was not reached for four hours and an attempt more than 60 seconds and less than four hours ago got no answer, and only to a pending newcomer |
| AddrManCollisions.SingleCollision | src/addrman.cpp:538-588 | for a single pending newcomer: a rival reached within four hours sends it away and nothing else changes; a rival that failed its test gives up the slot to it; otherwise nothing changes |
| AddrManCollisions.ResolveOneJudges | src/addrman.cpp:543-585 | one judgement by the numbers: unknown or invalid newcomers are dropped, and the rival decides about the others |
| AddrManCollisions.SelectedIsRival | src/addrman.cpp:590-615 | the entry picked for the test of a waiting newcomer is the known, tried occupant of its slot |
| AddrManCollisions.TestFails | src/addrman.cpp:329-615 | select, an attempt in vain, then resolve after a minute and within four hours: the newcomer has the slot |
| AddrManCollisions.TestSucceeds | src/addrman.cpp:192-615 | select, a success, then resolve within four hours: both tables are as before and the newcomer no longer waits |
| AddrManCollisions.GoodSendsHome | src/addrman.cpp:162-184 | a tried entry that is evicted by a success is new again, in the slot that its own source selects |
| AddrManReply.GetAddrReplies | src/addrman.cpp:475-494 | for every sound manager and every draw: bounds, distinct known entries, each worth handing out, and completeness below the bounds |
| AddrManReply.PresentableIsNotTerrible | src/addrman.cpp:35-53 | the five tests for a terrible entry leave exactly those tried within a minute, or seen within thirty days, not in the future, and without too many failures |
| AddrManHistory.FailuresCountOnce | src/addrman.cpp:329-349 | over every run without a success, with attempts not before the last one, an entry's failures grow by one if some attempt counts and none was counted since that success, else not at all |
| AddrManHistory.AddAgain | src/addrman.cpp:270-325 | a repeated announcement refreshes time and services, and adds one reference exactly if it is news for an entry that is new, has fewer than eight, wins a chance of one in two to the number it has, and finds room |
| AddrManHistory.AddFirst | src/addrman.cpp:298-325 | the first announcement is remembered with the announced data, less the penalty, and one reference, or leaves nothing but a used id |
| AddrManHistory.GoodRecords | src/addrman.cpp:192-215 | a success sets its times and clears the failures of exactly the service it was reported for |
| AddrManHistory.ConnectedRecords | src/addrman.cpp:496-514 | only the time of the exactly matching service changes, and only if it is more than 1200 seconds old |
| AddrManRuns.GoodKeeps | src/addrman.cpp:192-254 | Good at any time keeps the manager sound, ids and filled tried slots |
| AddrManRuns.AddKeeps | src/addrman.cpp:256-327 | Add keeps the manager sound, whatever is announced and drawn |
| AddrManRuns.AttemptKeeps | src/addrman.cpp:329-349 | Attempt at any time keeps the manager sound |
| AddrManRuns.ConnectedKeeps | src/addrman.cpp:496-514 | Connected keeps the manager sound |
| AddrManRuns.SetServicesKeeps | src/addrman.cpp:516-532 | SetServices keeps the manager sound |
| AddrManRuns.GetAddrKeeps | src/addrman.cpp:475-494 | drawing addresses shuffles the random list without breaking any index |
| AddrManRuns.ResolveFromKeeps | src/addrman.cpp:538-588 | judging any set of pending collisions keeps the manager sound |
| AddrManRuns.SelectKeeps | src/addrman.cpp:590-615 | picking a pending collision finds an occupied tried slot, so no default entry is planted and no entry changes |
| AddrManTimes.GoodTimes | src/addrman.cpp:192-254 | Good leaves possible times if and only if the service is unknown, the time positive, or the time zero and the newcomer only queued |
| AddrManTimes.AttemptTimes | src/addrman.cpp:329-349 | Attempt leaves possible times if and only if the service is unknown or the time not negative |
| AddrManTimes.AddTimes | src/addrman.cpp:256-327 | Add leaves possible times, whatever the clock says |
| AddrManTimes.ResolveFromTimes | src/addrman.cpp:538-588 | judging collisions leaves possible times at any clock reading |
| AddrManProof.MakeTriedKeeps | src/addrman.cpp:144-190 | moving an entry to tried, evicting and resettling the previous one, leaves a consistent manager in which the tried table differs in that one slot and no entry is new or has another address |
| AddrManProof.EvictKeeps | src/addrman.cpp:162-184 | evicting an entry keeps all indexes, reference counts and counters right while only the entry on its way to tried is without a reference |
| AddrManProof.ClearNewKeeps | src/addrman.cpp:129-142 | clearing a new slot keeps everything between operations right and touches only its occupant, which is deleted with its last reference |
| AddrManSteps.DeleteKeeps | src/addrman.cpp:115-127 | swapping an entry to the end and dropping it leaves all indexes mutually inverse |
| AddrManSteps.CreateKeeps | src/addrman.cpp:83-93 | a created entry is in every index, and counters and references are right but for that entry |
| AddrManSteps.AppendKeeps | src/addrman.h:410-421 | an entry appended to every index, as reading a file does, keeps all else right whatever counts it carries |
| AddrManSteps.SwapKeeps | src/addrman.cpp:95-113 | exchanging two places of the random list keeps list and entries mutually inverse |
| AddrMan.HeldSomewhere | src/addrman.cpp:233-236 | an untried entry is in some new bucket, so the exit for "no bucket found" is unreachable |
| AddrMan.Manager.constructor | src/addrman.h:464-491 | a fresh manager is empty and consistent |
| AddrMan.Manager.SwapRandom | src/addrman.cpp:95-113 | in-place exchange of two random places and their back references, nothing else |
| AddrMan.Manager.Delete | src/addrman.cpp:115-127 | removes the unreferenced entry from all three indexes |
| AddrMan.Manager.ClearNew | src/addrman.cpp:129-142 | the slot is free afterwards, its occupant has one reference less or is gone; the source's assertions hold |
| AddrMan.Manager.StripNew | src/addrman.cpp:146-156 | the scan over all new buckets takes out exactly the buckets that held the entry and brings its count to that many less |
| AddrMan.DropEachStrips | src/addrman.cpp:146-154 | looking at the 1024 buckets one by one amounts to removing the entry's set of slots at once |
| AddrMan.Manager.EvictTried | src/addrman.cpp:162-184 | the tried slot is freed by resettling its entry, asserts included |
| AddrMan.Manager.MakeTried | src/addrman.cpp:144-190 | the in-place code is the specified move to tried; both of its assertions hold |
| AddrMan.Manager.FindBucket | src/addrman.cpp:221-231 | the wrapping search returns a bucket that holds the entry, and -1 exactly when there is none |
| AddrMan.Manager.Good | src/addrman.cpp:192-254 | in-place Good is the specified one, keeps the manager sound at any time, and valid if and only if it is timely |
| AddrMan.Manager.Create | src/addrman.cpp:83-93 | appends the entry under the next id to every index |
| AddrMan.Manager.Insert | src/addrman.cpp:305-325 | the slot chosen by address and source is taken, or the entry deleted when it has no reference |
| AddrMan.Manager.Lottery | src/addrman.cpp:292-297 | wins exactly when there is no reference yet or a draw below two to the power of the reference count is zero |
| AddrMan.Manager.Add | src/addrman.cpp:256-327 | in-place Add is the specified one, reports whether the address is new, and keeps the manager valid |
| AddrMan.Manager.Attempt | src/addrman.cpp:329-349 | counts a failure at most once between successes; stays sound at any time, and valid if and only if a known service is not attempted before time zero |
| AddrMan.Manager.Connected | src/addrman.cpp:496-514 | refreshes the time of an exactly matching service when it is more than 20 minutes old |
| AddrMan.Manager.SetServices | src/addrman.cpp:516-532 | sets the services of an exactly matching service only |
| AddrMan.Manager.GetAddr | src/addrman.cpp:475-494 | the reply holds at most 2500 entries and 23 of each hundred, each known, listed once and worth handing out, and all such entries when it stays below both bounds; only the random order changes |
| AddrMan.Manager.ResolveCollisions | src/addrman.cpp:538-588 | pending collisions are judged in increasing order of id, each on the state the previous ones left; every tried slot and every newcomer is settled by what its rival did in the last four hours; the manager stays sound, and valid if it was |
| AddrMan.Manager.SelectTriedCollision | src/addrman.cpp:590-615 | returns the tried rival of the pending collision without changing any entry |
| AddrManRoundTrip.RoundTrip | src/addrman.h:315-461 | reading back what any consistent manager wrote gives the same entries in the same new and tried slots with the same counts, up to renaming ids, and consistent tables, whatever the reader held; the collisions pending before stay |
| AddrManRoundTrip.RestartExactly | src/addrman.h:315-486 | the whole invariant holds after reading if and only if the reader had at most ten collisions pending and each names an entry, in reading order, whose tried slot the writer has filled |
| AddrManRoundTrip.StaleCollision | src/addrman.h:464-486 | a reader with one collision pending breaks the invariant by reading the file of an empty manager |
| AddrManReading.DumpIsConsistent | src/addrman.h:365-461 | a well-formed file with distinct addresses and possible times gives a consistent manager if and only if neither announced count is negative, whatever its buckets say, and passes the check if its key is not null besides; pending collisions stay |
| AddrManReading.NegativeCount | src/addrman.h:365-461 | a file that announces minus one new entry is well-formed and leaves an inconsistent manager |
| AddrManReading.RebuildCounts | src/addrman.h:365-461 | for every file neither count ends above the announced one, and the key is the one read |
| AddrManRoundTrip.AllIsListed | src/addrman.h:329-348 | the reading order lists every entry once, the new ones first and in increasing order of id |
| AddrManRoundTrip.ClaimAllClaims | src/addrman.h:427-443 | after any number of stored buckets, exactly the slots of those buckets are claimed, by the entries that held them |
| AddrManRoundTrip.LoadTriedLoads | src/addrman.h:406-425 | no tried entry of a consistent manager is lost to a collision on reading |
| AddrManDisk.FlippedTwice | src/addrman.h:327-384 | the mark on the bucket count is undone by the same operation, for every 32-bit number |
| AddrManDisk.Ascending | src/addrman.h:331-348 | the traversal order is the increasing list of the given ids, each once |
| AddrManFile.Clear | src/addrman.h:464-486 | empties everything except the pending collisions |
| AddrManFile.ReadNews | src/addrman.h:386-403 | the loop over new entries is the specified load, also when the bucket data cannot be used |
| AddrManFile.ReadTrieds | src/addrman.h:406-425 | the loop over tried entries is the specified load, with lost entries subtracted at the end |
| AddrManFile.ReadRows | src/addrman.h:427-443 | the loop over stored buckets claims slots as specified, ignoring bad indexes, taken slots and full counts |
| AddrManFile.PruneHomeless | src/addrman.h:445-455 | deletes the untried entries without reference in increasing order of id |
| AddrManFile.Read | src/addrman.h:365-461 | reading is the specified Unserialize for every dump, and fails exactly on a wrong key size, after clearing |
| AddrManFile.WriteNew | src/addrman.h:329-339 | entries with a reference in order of id, and for every id its rank among them |
| AddrManFile.WriteTried | src/addrman.h:340-348 | the tried entries in order of id |
| AddrManFile.WriteRows | src/addrman.h:349-362 | for each bucket the ranks of its occupants in order of position |
| AddrManFile.Write | src/addrman.h:315-363 | writing is the specified Serialize, with exactly as many entries as announced, so neither of its assertions fires |
| AddrManFile.Restart | src/addrman.h:315-461 | writing one manager and reading it into another succeeds and reproduces it up to renaming ids; the reader is valid if and only if its old collisions fit, and always with none |
| AddrManFile.Reload | src/addrman.h:315-491 | a new manager that reads what a valid one wrote is valid and holds the same up to renaming ids |
| CoinsModel.See | src/coins.h:133-146 | a cache over a parent shows its own unspent coins, and the parent's where it has no entry |
| CoinsModel.FillKeeps | src/coins.cpp:68-84 | caching the parent's answer keeps what the flags promise and changes nothing visible |
| CoinsModel.AddCoinKeeps | src/coins.cpp:96-116 | adding a coin the view lacks, or may overwrite, does not throw, keeps the promises and is a map update of the view |
| CoinsModel.AddCoinExactly | src/coins.cpp:96-116 | AddCoin neither throws nor misapplies FRESH exactly when overwriting is allowed or the view has no such coin |
| CoinsModel.MisappliedFreshResurrects | src/coins.cpp:107-149 | adding over a coin only the parent has and then spending it makes the parent's coin visible again |
| CoinsModel.SpendCoinKeeps | src/coins.cpp:135-149 | spending is removal from the view, also when a FRESH entry is erased |
| CoinsModel.UncacheKeeps | src/coins.cpp:324-331 | uncaching an unmodified entry changes nothing visible |
| CoinsModel.MergeKeeps | src/coins.cpp:248-299 | writing one entry into the parent does not throw, keeps the parent's promises and overlays exactly that entry on the parent's view |
| FlagCaches.MergeKeeps | src/coins.cpp:187-240 | writing one nullifier or anchor entry overlays it on the parent's view, though only the entered flag is copied when the parent has the key |
| FlagCaches.SetKeeps | src/coins.cpp:571-580 | marking an entry dirty overlays it on the view |
| CoinsLayer.DbWriteAnchorIs | src/sapling/sapling_txdb.cpp:57-77 | the database's answers about anchors follow an entry exactly unless it withdraws the empty tree |
| CoinsBatch.WriteCoins | src/coins.cpp:248-299 | the batch loop never throws and makes the parent show exactly what the child showed, in whatever order entries come |
| CoinsBatch.WriteFlags | src/coins.cpp:187-240 | the same for nullifiers and anchors, when keys in both stand for the same value |
| CoinsBatch.WriteCoinsToDb | src/txdb.cpp:125-149 | the database then holds exactly the unspent coins the cache showed |
| CoinsBatch.WriteNullifiersToDb | src/sapling/sapling_txdb.cpp:37-54 | the database then holds exactly the nullifiers the cache showed |
| CoinsBatch.WriteAnchorsToDb | src/sapling/sapling_txdb.cpp:57-77 | the database then answers as the cache did with the empty tree added, so exactly as the cache if and only if the batch does not withdraw the empty tree |
| CoinsStack.BatchWrite | src/coins.cpp:242-308 | the parent's layer after a child's batch shows the child's coins, anchors and nullifiers and takes its hashes; the logic error is unreachable |
| CoinsStack.WriteToDb | src/txdb.cpp:95-162 | the database then shows what the cache showed, with the empty tree, and has its best block |
| CoinsViews.UnseenChange | src/coins.cpp:68-94 | a change of a layer that its own view does not show is shown by no view of the stack |
| CoinsViews.HashesSurviveFlush | src/coins.cpp:304-306 | best block and anchor are the same after a flush exactly when the child had them set or the parent had none of its own |
| CoinsChanges.MarkedAre | src/coins.cpp:571-580 | marking a list of nullifiers spends, or unspends, those and no others |
| CoinsChanges.SameKeySameTree | src/coins.cpp:206-212 | with an injective root, two caches that keep trees under their roots agree on every common key, so not copying the tree is harmless |
| CoinsViews.AlikeFrom | src/coins.cpp:242-322 | caches above a view whose coins, anchors and nullifiers stay remain sound and keep theirs; they keep everything if that view does |
| CoinsChanges.OverRegains | src/coins.cpp:443-465 | a cache over a view that regains the empty tree stays sound, and shows it unless it has an entry of its own |
| CoinsViews.FlushDatabase | src/txdb.cpp:95-162 | after the lowest cache is written out the whole stack is sound, and every view is as before but for the empty tree where it is regained |
| CoinsViews.FlushLayers | src/coins.cpp:310-322 | after a cache anywhere in the stack is written into its parent the whole stack is sound, views below are untouched and views above keep their maps |
| CoinsStack.Stack.constructor | src/txdb.cpp:65-85 | an empty database shows no coins and the empty tree as its only and best anchor |
| CoinsStack.Stack.Push | src/coins.cpp:59-59 | a new cache shows what its parent shows and changes no view |
| CoinsStack.Stack.Pop | src/validation.cpp:2367-2380 | dropping the top cache leaves every other view as it was |
| CoinsStack.Stack.GetCoin | src/coins.cpp:86-94 | the answer is the view's unspent coin, or a spent one or none, and no view changes |
| CoinsStack.Stack.FetchCoin | src/coins.cpp:68-84 | afterwards the cache has an entry unless the parent shows no coin, and no view changes |
| CoinsStack.Stack.HaveCoin | src/coins.cpp:163-167 | true exactly when the view has the coin; no view changes |
| CoinsStack.Stack.AccessCoin | src/coins.cpp:153-161 | the view's coin, else a spent one; no view changes |
| CoinsStack.Stack.Uncache | src/coins.cpp:324-331 | only the unmodified entry leaves the cache; no view changes |
| CoinsStack.Stack.GetNullifier | src/coins.cpp:467-479 | true exactly when the view has the nullifier; no view changes |
| CoinsStack.Stack.GetSaplingAnchorAt | src/coins.cpp:443-465 | finds exactly the view's tree, and leaves it in the cache; no view changes |
| CoinsStack.Stack.GetBestAnchor | src/coins.cpp:582-586 | the view's best anchor; no view changes |
| CoinsStack.Stack.GetBestBlock | src/coins.cpp:175-180 | the view's best block; no view changes |
| CoinsStack.Stack.AddCoin | src/coins.cpp:96-116 | a map update of the top view when allowed, no change for unspendable outputs; otherwise a throw, or a cache entry that breaks its promise to the parent; views below are untouched |
| CoinsStack.Stack.SpendCoin | src/coins.cpp:135-149 | removes the coin from the top view, hands it out, and touches no view below |
| CoinsStack.Stack.SetBestBlock | src/coins.cpp:182-185 | sets the top view's best block; the null hash falls back to the parent's |
| CoinsStack.Stack.SetNullifiers | src/coins.cpp:571-580 | marks exactly the given nullifiers in the top view |
| CoinsStack.Stack.PushAnchor | src/coins.cpp:481-521 | enters the tree under its root and makes it best, unless it already is |
| CoinsStack.Stack.PopAnchor | src/coins.cpp:532-569 | withdraws the best anchor and makes another best, unless it already is |
| CoinsStack.Stack.FlushToCache | src/coins.cpp:310-322 | at any depth: child and parent both show what the child showed, the child is empty but for its hashes, views below are untouched, and views above keep coins, anchors and nullifiers, and all else if the hashes survive |
| CoinsStack.Stack.FlushToDb | src/txdb.cpp:95-162 | under any number of caches: the database shows the lowest cache with the empty tree added, and every view is as before except that it has the empty tree again exactly when the lowest cache withdrew it and no cache between has an entry for it |
| CoinsBlocks.RemovedAre | src/validation.cpp:1040-1047 | spending a list of outputs removes those and no others |
| CoinsBlocks.CreatedAre | src/coins.cpp:118-133 | creating a list of outputs adds exactly the spendable ones |
| CoinsBlocks.SpendAll | src/validation.cpp:1040-1047 | the inputs are gone from the top view, no other view changes, and the undo list holds the coins they were |
| CoinsBlocks.CreateAll | src/coins.cpp:118-133 | the outputs that can be spent are in the top view, and no other view changes |
| CoinsBlocks.UpdateCoins | src/validation.cpp:1038-1054 | spends, then creates; the undo list is as for the spending |
| CoinsBlocks.ConnectBlock | src/validation.cpp:1681-2025 | the transactions in order, the tree of the best anchor with their commitments appended, and the new best block are in the top view, and no other view changes |
| CoinsBlocks.ConnectTip | src/validation.cpp:2367-2380 | after a cache for the block is filled, written into the tip cache and dropped, the tip shows exactly what it showed with the block connected, and the database is untouched |
| CoinsBlocks.Commit | src/validation.cpp:2376-2380 | a cache that knows its hashes, written into the tip and dropped, leaves the tip showing what it showed |
| CoinsBlocks.FlushTip | src/validation.cpp:2119-2124 | writing the tip of a chain to the database is exact: both show what the tip showed |
| CoinsBlocks.NewRootIsNew | src/validation.cpp:1681-1892 | with an injective root, a block leaves the tree as it is or makes a root that no known anchor has |
| CoinsBlocks.ConnectedNests | src/validation.cpp:1681-1892 | connecting a block keeps every known tree a stage of the best one, and the best and the empty one known |
| CoinsBlocks.LosesBestBlock | src/coins.cpp:304-306 | two caches, the lower knowing its best block and the upper never asked: the flush makes the lower one answer the database's |
| CoinsBlocks.RegainsEmptyAnchor | src/sapling/sapling_txdb.cpp:57-77 | the empty tree withdrawn from a new stack is an anchor again after the flush |
| CoinsUndo.TxUndone | src/validation.cpp:1387-1431 | taking a transaction's outputs out and putting its inputs back from the undo data gives exactly the coins before it |
| CoinsUndo.BlockUndone | src/validation.cpp:1345-1470 | undoing a block from its last transaction passes back through every state that connecting it passed through |
| CoinsUndo.ConnectedIsTidy | src/validation.cpp:1387-1431 | over an unchanged view every output is found as the block has it and no input is overwritten |
| CoinsDisconnect.AccessByTxid | src/coins.cpp:430-439 | the first unspent output of the transaction, or a spent coin; no view changes |
| CoinsDisconnect.ApplyTxInUndo | src/validation.cpp:1281-1309 | puts the coin back, completed from another output when its height is missing; fails exactly when there is none; unclean exactly when a coin was there |
| CoinsDisconnect.RetractAll | src/validation.cpp:1387-1396 | the spendable outputs are gone; clean exactly when each was there as the block has it |
| CoinsDisconnect.RestoreAll | src/validation.cpp:1421-1429 | the inputs are put back, the last one first; failed, clean or unclean exactly as specified |
| CoinsDisconnect.DisconnectBlock | src/validation.cpp:1313-1531 | coins, best anchor and best block as specified for any undo data of unspent coins; failed exactly when the data do not pair up or a coin cannot be completed, clean exactly when the view was as the block left it |
| CoinsDisconnect.ConnectAndDisconnect | src/validation.cpp:1312-1531 | connecting a block in a cache and disconnecting it is clean and restores the whole view |
| CoinsDisconnect.DisconnectTip | src/validation.cpp:2195-2217 | a tip that came from a view by connecting a block shows that view again, after a cache in which the block is undone is written into it and dropped; the result is clean |
| CoinsDisconnect.ConnectedReverts | src/validation.cpp:1312-1531 | a view reached by connecting a block can be reverted: the undo data are complete, the coins match, and anchors and hashes return |
| CoinsChain.ChainNests | src/validation.cpp:1681-1892 | for every chain of blocks the known trees are stages of the best one, the empty one among them, and the last block is the best |
| CoinsChain.ChainState.constructor | src/validation.cpp:1621-1627 | only the first block: no coins, the empty tree, its hash |
| CoinsChain.ChainState.Connect | src/validation.cpp:2355-2395 | the tip shows what the chain with the new block makes of the first one; its undo data and final root are recorded |
| CoinsChain.ChainState.Disconnect | src/validation.cpp:2195-2217 | cleanly, the tip shows what the chain without its last block makes of the first one, whatever was connected, disconnected and written before |
| CoinsChain.ChainState.Flush | src/validation.cpp:2119-2124 | the database too then shows exactly the chain |
| MerkleModel.WidthFormula | src/merkleblock.h:67-70 | the closed form of the number of nodes at a height is repeated halving, rounded up |
| MerkleModel.HeightFrom | src/merkleblock.cpp:112-115 | the height found is the least one with a single node |
| MerkleModel.LastMeetsFirst | src/merkleblock.cpp:60-61 | the leaves below neighbouring nodes are adjacent, and the last node's end at the last leaf |
| Merkle.TraverseBuilt | src/merkleblock.cpp:56-104 | reading a subtree out of any stream that contains its encoding uses exactly that part, is not bad, and returns its hash and its matches in order |
| MerkleTheorems.RoundTrip | src/merkleblock.cpp:106-155 | for every nonempty list within the limit and every selection, extraction from the encoding, padded to bytes, passes all guards and returns the root and exactly the selected ids in order |
| MerkleTheorems.Authentic | src/merkleblock.cpp:123-155 | for arbitrary bits and hashes: with an injective pair hash, accepted data with the block's root selects transactions of the block at strictly increasing positions |
| MerkleTheorems.SubtreeAuthentic | src/merkleblock.cpp:75-104 | the same for every subtree that is read without fault and hashes to the block's node |
| MerkleTheorems.HashesFit | src/merkleblock.h:40-41 | at most one hash for each leaf, and at least one bit for each hash |
| MerkleTheorems.HashesFollowMatches | src/merkleblock.h:40-41 | at most 1 + matches * height hashes |
| MerkleTheorems.BitCount | src/merkleblock.h:43-49 | the exact number of flag bits: twice the hashes less one, plus one for each single-child node that is descended into |
| MerkleTheorems.BitsWithinBound | src/merkleblock.h:43-49 | the documented bound on the bits holds exactly when no last node over an odd level has a match below it |
| MerkleTheorems.BitBoundExceeded | src/merkleblock.h:43-49 | three transactions with the last one selected give two hashes and four bits |
| MerkleSizes.SinglesCount | src/merkleblock.cpp:56-73 | the single-child nodes descended into are the last nodes over odd levels with a match below, counted exactly |
| MerkleSizes.SizeWithinBound | src/merkleblock.h:32-49 | for every block within the limit and every selection the size is at most two bytes above the documented one, and within it if and only if there are fewer than 253 flag bytes or the extra bits fit the last one |
| MerkleSizes.SmallBlocksFit | src/merkleblock.h:32-49 | up to a thousand transactions the documented size is kept for every selection |
| MerkleSizes.LargeBlockExceeds | src/merkleblock.h:32-49 | a family of large blocks with everything selected takes exactly one byte more than documented |
| MerkleSizes.SizeExceeded | src/merkleblock.h:32-49 | 1012 transactions, all selected, are such a block |
| PartialMerkle.Pack | src/merkleblock.h:101-105 | the bytes hold the bits, lowest first, padded with zeros to the byte |
| PartialMerkle.Unpack | src/merkleblock.h:94-99 | the bits of the bytes in order |
| PartialMerkle.Tree.CalcTreeWidth | src/merkleblock.h:67-70 | the shift formula gives the number of nodes at the height |
| PartialMerkle.Tree.TraverseAndBuild | src/merkleblock.cpp:56-73 | appends exactly the depth-first encoding of the subtree |
| PartialMerkle.Tree.constructor | src/merkleblock.cpp:106-119 | the tree is the encoding of the whole list, over a single root node |
| PartialMerkle.Tree.TraverseAndExtract | src/merkleblock.cpp:75-104 | consumes, returns and collects what the specified traversal does, stays in bounds for any bits and hashes, and terminates |
| PartialMerkle.Tree.ExtractMatches | src/merkleblock.cpp:123-155 | root and matches as specified, zero when any guard fails |
| PartialMerkle.Tree.Deserialize | src/merkleblock.h:89-107 | the fields as read from the wire, with the fault flag cleared |
| PartialMerkle.SendAndExtract | src/merkleblock.cpp:106-155 | building, sending as bytes, reading and extracting returns the root and exactly the selected ids |
| MerkleRoot.UnmutatedIsUnique | src/consensus/merkle.cpp:9-39 | two lists with the same root are the same if the flag for duplicates is not set for the longer one, pairs hash without collisions and the first id of the shorter one is no hash of a pair |
| MerkleRoot.PaddingHasTwins | src/consensus/merkle.cpp:33-38 | a complete node that equals an incomplete one, padded with its own last part, has two equal complete neighbours below it, which set the flag |
| MerkleRoot.RepeatedSharesRoot | src/consensus/merkle.cpp:16-27 | three transactions and the same with the last repeated have one root, and the flag is set for the second list |
| MerkleRoot.HeightsShow | src/consensus/merkle.cpp:87-123 | trees of different heights have different roots unless the first leaf is itself the hash of a pair |
| MerkleRoot.BranchProves | src/consensus/merkle.cpp:135-152 | a branch of the right length leads to the root from an id if and only if that is the id at its position and the branch is the one of that position |
| MerkleComputation.AddLeaf | src/consensus/merkle.cpp:61-86 | after each leaf the kept hashes are the complete nodes that the bits of the count name, the branch so far is right and the flag says whether equal neighbours were hashed |
| MerkleComputation.Carry | src/consensus/merkle.cpp:66-80 | a leaf is carried up exactly past the nodes it completes a pair with |
| MerkleComputation.SweepUp | src/consensus/merkle.cpp:110-122 | the last node goes up with its kept neighbours as long as it has any |
| MerkleComputation.Sweep | src/consensus/merkle.cpp:87-123 | going up the right edge ends at the root, with the branch completed |
| MerkleComputation.Compute | src/consensus/merkle.cpp:42-127 | root, branch and flag of any list of up to 2^31 leaves are those of the tree; zero, none and not set for the empty one |
| MerkleComputation.CountFits | src/consensus/merkle.cpp:106-111 | the count as if odd levels were filled up fits 32 bits for up to 2^31 leaves, and the level stays below 32 |
| MerkleComputation.RootFromBranch | src/consensus/merkle.cpp:141-152 | the loop hashes the leaf with the branch on the sides that the bits of the position tell |
| MerkleComputation.ComputeAndCheck | src/consensus/merkle.cpp:135-152 | the branch computed for a transaction leads from its id to the root |
| Arith.Add | src/arith_uint256.h:140-150 | sum modulo 2 to the width, also when both operands are the same array |
| Arith.Increment | src/arith_uint256.h:178-185 | successor modulo 2 to the width |
| Arith.Decrement | src/arith_uint256.h:195-202 | predecessor modulo 2 to the width |
| Arith.Negate | src/arith_uint256.h:82-89 | the additive inverse modulo 2 to the width |
| Arith.Subtract | src/arith_uint256.h:152-156 | difference modulo 2 to the width |
| Arith.ColumnFits | src/arith_uint256.cpp:82-84 | the 64-bit accumulator of a product column cannot overflow |
| Arith.MultiplyLimb | src/arith_uint256.cpp:62-72 | product with a 32-bit number modulo 2 to the width |
| Arith.Multiply | src/arith_uint256.cpp:74-88 | product modulo 2 to the width for distinct operands, zero for an operand multiplied by itself in place |
| Arith.CompareTo | src/arith_uint256.cpp:116-126 | numeric order, and zero exactly for equal limbs |
| Arith.EqualTo | src/arith_uint256.cpp:128-140 | true exactly when the number is the given 64-bit one |
| ArithShift.ShiftLeft | src/arith_uint256.cpp:28-43 | multiplication by a power of two modulo 2 to the width, for every shift |
| ArithShift.ShiftRight | src/arith_uint256.cpp:45-60 | floor division by a power of two, for every shift |
| ArithDiv.Bits | src/arith_uint256.cpp:213-226 | the exact bit length |
| ArithDiv.QuotientBit | src/arith_uint256.cpp:104-111 | one turn keeps dividend = quotient * divisor + remainder with the remainder below the shifted divisor |
| ArithDiv.Divide | src/arith_uint256.cpp:90-114 | floor quotient and remainder for every nonzero divisor, an error with a zeroed result otherwise |
| Compact.SetCompact | src/arith_uint256.cpp:273-291 | the array holds mantissa * 256^(size-3) modulo 2^256, and both flags are as defined |
| Compact.GetCompact | src/arith_uint256.cpp:293-314 | the 32-bit encoding of the number; both of its assertions hold |
| Compact.GetLow64 | src/arith_uint256.h:280-284 | the number modulo 2^64 |
| Compact.Assign64 | src/arith_uint256.h:93-100 | the array holds the 64-bit number |
| Compact.OverflowIsExact | src/arith_uint256.cpp:286-289 | the overflow flag is set exactly when the decoded number is at least 2^256 |
| Compact.RoundsDown | src/arith_uint256.cpp:273-314 | decoding an encoding gives at most the number, and misses less than one unit of the last mantissa place |
| Compact.FlagsOf | src/arith_uint256.cpp:284-313 | decoding an encoding of a 256-bit number reports its sign and never overflow |
| Compact.EncodingIsStable | src/arith_uint256.cpp:273-314 | encoding what an encoding decodes to gives the same encoding |
| Compact.EncodingIsMonotone | src/masternodeman.cpp:610-616 | a larger number never has a smaller encoding, so sorting by compact score never inverts the order of full scores |
| Compact.EncodingFits | src/arith_uint256.cpp:309-313 | the size of a 256-bit number is at most 33 and its encoding fits 32 bits |
| CheckQueueModel.EveryWaitIsRight | src/checkqueue.h:67-141 | in every interleaving each Wait returned true exactly when all checks added since the previous one pass, though checks are skipped after a failure |
| CheckQueueModel.TodoIsExact | src/checkqueue.h:53-58 | in every reachable state the counter equals queued plus in-flight checks |
| CheckQueueModel.NoLostWakeUp | src/checkqueue.h:81-102 | a master that waits un-notified has a worker in the middle of a nonempty batch |
| CheckQueueModel.IdleUntilAdd | src/checkqueue.h:162-166 | with nothing added since the last Wait, every reachable state reports idle |
| CheckQueueModel.WaitReturnsIdle | src/checkqueue.h:89-98 | a return of Wait records one outcome for all added checks and leaves the queue idle |
| CheckQueueModel.WorkShrinks | src/checkqueue.h:74-124 | no step but Add increases the work left, and executing or settling a batch decreases it |
| CheckQueueModel.NeverStuck | src/checkqueue.h:74-124 | while the master is in Wait some step can be taken that uses up work or lets the master return |
| CheckQueueModel.WorkIsBounded | src/checkqueue.h:74-124 | a run without Add has at most as many working steps as there was work, less what is left |
| CheckQueueModel.ReturnsWhenDone | src/checkqueue.h:89-98 | with no thread in a batch the waiting master returns at its next step |
| CheckQueueModel.MasterReturns | src/checkqueue.h:74-141 | from every state in which the master waits some run without Add, of at most one step more than there is work, lets it return |
| CheckQueueModel.RunKeeps | src/checkqueue.h:67-166 | every run of enabled steps keeps the invariant |
| CheckQueueModel.ApplyKeeps | src/checkqueue.h:67-166 | every step of every thread keeps the invariant |
| CheckQueueModel.BatchSize | src/checkqueue.h:103-108 | a batch takes at least one check, never more than the queue holds nor than the limit, and otherwise as many as leave the same for every other thread, idle ones counted twice, and one more |
| CheckQueueModel.BatchAdvances | src/checkqueue.h:119-122 | in every run in which a thread stays in its batch it has executed as many checks as there were such steps, with the flag of those checks, whatever the other threads did |
| CheckQueueModel.BatchEnds | src/checkqueue.h:119-122 | a thread through with its batch is ready to lock, and its flag is the one the loop over the batch computes |
| CheckQueue.RunBatch | src/checkqueue.h:119-122 | the batch passes exactly when nothing had failed before and every check passes |
| CheckQueue.Queue.constructor | src/checkqueue.h:129-129 | a new queue is in the initial state of the machine |
| CheckQueue.Queue.Add | src/checkqueue.h:144-156 | adding under the lock is the Add step |
| CheckQueue.Queue.TakeBatch | src/checkqueue.h:103-115 | moves the specified number of checks off the end, in reverse order |
| CheckQueue.Queue.LoopTop | src/checkqueue.h:74-118 | entering the loop, or returning with a finished batch, is one step; what Wait returns is whether all added checks pass |
| CheckQueue.Queue.WakeUp | src/checkqueue.h:89-118 | waking, notified or not, is one step with the same outcomes |
| CheckQueue.Queue.IsIdle | src/checkqueue.h:162-166 | reports idle as defined, and always with nothing added |
| Radix.RecodeBack | src/base58.cpp:23-126 | changing the base with leading zeros kept and back is the identity, for any two bases |
| RadixBuffer.MultiplyAdd | src/base58.cpp:44-53 | the carry loop multiplies the buffer and adds the digit; with enough room the final carry is zero |
| Base58.EncodeFits | src/base58.cpp:97-99 | 138/100 of the length plus one is always enough room, so the encoder's assertion never fires |
| Base58.DecodeFits | src/base58.cpp:35-37 | 733/1000 of the length plus one is always enough room, so the decoder's assertion never fires |
| Base58.AlphabetIs | src/base58.cpp:20-21 | the symbols are the digits without 0 and the letters without I, O and l, in the order of their codes |
| Base58.DecodeEncode | src/base58.cpp:23-126 | every byte string is read back from its encoding |
| Base58.DecodeIsInverse | src/base58.cpp:23-126 | a string is accepted with a result exactly when, without surrounding spaces, it is the encoding of that result |
| Base58.DecodeCheckIsInverse | src/base58.cpp:138-162 | the same with the four check bytes, for any check function |
| Base58.EncodeBase58 | src/base58.cpp:88-126 | the code computes the encoding |
| Base58.DecodeBase58 | src/base58.cpp:23-71 | the code accepts exactly what can be decoded, with that result |
| Base58.EncodeBase58Check | src/base58.cpp:138-145 | the code computes the checked encoding |
| Base58.DecodeBase58Check | src/base58.cpp:147-162 | accepts exactly what has a right check, and clears the result otherwise |
| Bech32Model.StepLinear | src/bech32.cpp:81-91 | the register step respects sums over GF(2) |
| Bech32Model.StepKernel | src/bech32.cpp:81-91 | only the zero register is stepped to zero |
| Bech32Field.TimesExample | src/bech32.cpp:51-57 | the documented examples of addition and multiplication in GF(32) |
| Bech32Field.Constants | src/bech32.cpp:86-91 | the first constant packs the coefficients 29, 22, 20, 21, 29, 18 of the generator, and each next one is the one before with every symbol multiplied by {2} |
| Bech32Field.StepIsNext | src/bech32.cpp:66-91 | a step of the register is a step of polynomial division by the generator |
| Bech32Field.NextDivides | src/bech32.cpp:66-78 | from a quotient and remainder of f(x), those of f(x) * x + e |
| Bech32Field.RemainderIsUnique | src/bech32.cpp:44-46 | a polynomial has only one remainder |
| Bech32.PolyModIsRemainder | src/bech32.cpp:39-46 | the register packs the remainder of the polynomial with the coefficients 1, v0, v1, ... modulo the generator |
| Bech32.VerifiesExactly | src/bech32.cpp:118-125 | a string verifies if and only if its polynomial leaves the remainder 1 |
| Bech32Space.Moves | src/bech32.cpp:46-48 | in a field of 1024 elements no element but zero is back after fewer than 1023 multiplications by the primitive one |
| Bech32Space.Vandermonde | src/bech32.cpp:46-48 | three summands whose sums vanish at three successive powers, at distinct positions within 1023, are zero |
| Bech32Distance.NextValue | src/bech32.cpp:46-78 | the generator vanishes at the powers 24, 25 and 26 of the primitive element, so that division steps respect evaluation there |
| Bech32Errors.NotZero | src/bech32.cpp:46-48 | up to three symbols that are not zero, within 1023, leave the register not zero |
| Bech32.ThreeChangesShow | src/bech32.cpp:46-48 | up to three changed symbols within a window of 1023, in a list of any length, change the register |
| Bech32.ThreeChangesDetected | src/bech32.cpp:46-125 | up to three changes in a valid string of at most 1023 values make it invalid |
| Bech32.ChecksumVerifies | src/bech32.cpp:118-139 | the created checksum verifies for every prefix and every list of values |
| Bech32.ChecksumIsUnique | src/bech32.cpp:118-139 | no other six symbols verify |
| Bech32.Detected | src/bech32.cpp:37-94 | any change within six consecutive symbols, in a list of any length, changes the register |
| Bech32.SingleChangeDetected | src/bech32.cpp:118-125 | changing any single value of a valid string makes it invalid |
| Bech32Text.DecodeEncode | src/bech32.cpp:147-192 | decoding an encoding returns the inputs exactly for nonempty printable prefixes without capitals, values below 32 and at most 1023 characters in all |
| Bech32Text.EncodeDecode | src/bech32.cpp:147-192 | whatever is accepted is, up to case, the encoding of its result |
| Bech32Text.SymbolsOfCharset | src/bech32.cpp:12-13 | value v is written as character v of the character set |
| Bech32Code.PolyMod | src/bech32.cpp:37-94 | the loop computes the register, which for symbols is the remainder modulo the generator |
| Bech32Code.ExpandHrp | src/bech32.cpp:103-115 | the loop computes the expanded prefix |
| Bech32Code.VerifyChecksum | src/bech32.cpp:118-125 | the code decides validity, for symbols whether the remainder is 1 |
| Bech32Code.CreateChecksum | src/bech32.cpp:128-139 | the code computes the six symbols |
| Bech32Code.Encode | src/bech32.cpp:147-159 | the code computes the encoding, empty where a value is no symbol |
| Bech32Code.Decode | src/bech32.cpp:162-192 | the code computes the decoding, with every rejection |
| Chain.InvertIsAnd | src/chain.cpp:66-67 | the bit trick clears the lowest one bit |
| Chain.SkipHeight | src/chain.cpp:69-78 | the skip height is strictly lower |
| Chain.Block.constructor | src/validation.cpp:2758-2762 | a block is one higher than its predecessor, or at height zero without one |
| Chain.GetAncestor | src/chain.cpp:80-101 | following skip pointers ends at the block that walking back reaches, for every height, and null outside |
| Chain.BuildSkip | src/chain.cpp:108-112 | the new block joins the index with the right skip pointer |
| Chain.LastCommonAncestor | src/chain.cpp:329-345 | the highest block both descend from, or null when they share none |
| Chain.ActiveChain.SetTip | src/chain.cpp:13-24 | from any consistent chain the list becomes exactly the new tip's ancestors, despite the early stop |
| Chain.ActiveChain.Contains | src/chain.h:447-451 | true exactly when the tip descends from the block |
| Chain.ActiveChain.Next | src/chain.h:453-460 | the successor on the chain, for exactly the chain's blocks below the tip |
| Chain.ActiveChain.FindFork | src/chain.cpp:55-64 | the highest block that the given one and the chain share |
| Chain.ActiveChain.GetLocator | src/chain.cpp:26-53 | ancestors at the heights that single and then doubling steps give, down to the first block |
| ChainLocator.LocatorIsShort | src/chain.cpp:26-53 | the heights are the start less 0 to 10 and then less 9 plus a power of two, fall strictly to zero, and number at most twelve more than the binary logarithm of the start |
| CuckooModel.SwapKeeps | src/cuckoocache.h:392-411 | exchanging the element in hand with that of one of its locations loses nothing and duplicates nothing |
| CuckooModel.PlaceLoses | src/cuckoocache.h:383-391 | writing the element in hand over a slot loses at most what was there |
| CuckooPath.NextSlotDiffers | src/cuckoocache.h:392-406 | with eight distinct locations an element just put in is not moved again at once |
| CuckooPath.PathGrows | src/cuckoocache.h:382-415 | one move more: the element in hand, without room, takes the next of its locations, and its occupant is in hand |
| Cuckoo.Cache.constructor | src/cuckoocache.h:315-329 | an empty cache: filler everywhere, all slots collectable, none recent, epoch size 45 percent and at least one |
| Cuckoo.Setup | src/cuckoocache.h:315-329 | the table has the greatest power of two of slots within the wanted size, two at least; the depth limit is its exponent; locations are hashes reduced to the table; the cache is empty |
| Cuckoo.Cache.EpochCheck | src/cuckoocache.h:264-296 | counts down; at zero, with enough recent slots in use, no slot stays recent and exactly those that were not become collectable besides those that are; with fewer it waits as long as the worst case needs |
| Cuckoo.Cache.NextLocation | src/cuckoocache.h:406-406 | the location after the last one used, cyclically, and the second to begin with |
| Cuckoo.Cache.Place | src/cuckoocache.h:382-415 | there is a path from the new element on which each has no collectable location and took the next of its locations from the following one; the last of it takes the first collectable location it has, within the limit, or is dropped at exactly the limit; all slots, epochs and flags are those after the moves, so the new element is of the latest epoch; at most one element stops being found |
| Cuckoo.Cache.Insert | src/cuckoocache.h:368-416 | on the flags the epoch check leaves: a present element is kept and made recent, a new one is placed by such a path; at most one element, counting the inserted one, stops being found; every element stays at one of its own locations, and only the filler is in two slots |
| Cuckoo.Cache.Contains | src/cuckoocache.h:443-453 | found exactly when in one of its locations; with erase exactly that slot becomes collectable |
| BitFlags.Flags.constructor | src/cuckoocache.h:61-68 | room for all flags, and every one set |
| BitFlags.Flags.Set | src/cuckoocache.h:92-95 | sets one flag and no other |
| BitFlags.Flags.Unset | src/cuckoocache.h:103-106 | clears one flag and no other |
| BitFlags.Flags.Query | src/cuckoocache.h:113-116 | reads one flag |
| Bloom.PutGetSame | src/bloom.h:144-151 | a tag that was written is read back |
| Bloom.PutGetOther | src/bloom.h:144-151 | writing a tag leaves the other fifteen of its word alone |
| Bloom.WipeKeeps | src/bloom.cpp:265-277 | starting a generation ages every remembered key by one and forgets none younger than the oldest |
| Bloom.WipeBacks | src/bloom.cpp:265-277 | after a wipe every remaining tag still belongs to a key of the last two generations |
| Bloom.Filter.constructor | src/bloom.cpp:235-256 | an empty filter with half the elements, rounded up, to a generation |
| Bloom.Filter.Reset | src/bloom.cpp:309-317 | forgets every key and takes a new tweak |
| Bloom.Filter.Wipe | src/bloom.cpp:271-276 | zeroes exactly the tags of one generation |
| Bloom.Filter.Insert | src/bloom.cpp:263-284 | tags exactly the key's positions, moving to the next generation and wiping it when the present one is full; all earlier keys stay remembered as long as due |
| Bloom.Filter.Contains | src/bloom.cpp:292-301 | true for each of the last N keys and up to one and a half N; and when true, every position of the key was set by one of those keys |
| Assembler.Assembler.constructor | src/blockassembler.cpp:129-157 | limits clamped as configured, and an empty block |
| Assembler.Assembler.IsStillDependent | src/blockassembler.cpp:277-285 | true exactly when a pool parent is missing from the block |
| Assembler.Assembler.TestForBlock | src/blockassembler.cpp:287-336 | accepts exactly what is not kept out: not final, shielded during maintenance, reaching the block size, above 750000 shielded bytes or reaching 40000 signature operations; finishes the block or counts the try as defined |
| Assembler.Assembler.AddToBlock | src/blockassembler.cpp:338-360 | the block stays ordered, within its limits and of allowed transactions, and all counters remain the totals over its transactions |
| Assembler.Assembler.AddScoreTxs | src/blockassembler.cpp:362-414 | terminates; keeps order, limits and totals; whatever has a higher score than a transaction that was added is in the block, misses a parent, is kept out, or was made ready when the loop ended; everything waiting misses a parent; when neither finished nor stopped by a low fee, each transaction outside the block misses a parent or is kept out |
| Assembler.Assembler.AddPriorityTxs | src/blockassembler.cpp:416-486 | terminates and never meets a transaction already in the block; no transaction that has no parent in the pool and is not kept out stays outside while one of lower priority is in; when the heap runs out the block is full; unless stopped early everything waiting misses a parent; after an early stop exactly the children of the last transaction with all other parents in the block wait for nothing |
| Assembler.Assembler.PriorityStep | src/blockassembler.cpp:437-484 | one turn postpones, refuses, adds and readies the children, or adds and stops, exactly as specified; a stop says what is forgotten |
| Assembler.EarlyStopForgets | src/blockassembler.cpp:467-471 | stopping at a transaction forgets, among the waiting, exactly its children whose other parents are in |
| Assembler.ForgottenChild | src/blockassembler.cpp:437-484 | a child tried before its parent ends up waiting for nothing when the parent fills the room for priority |
| Assembler.Assembler.AddTransactions | src/blockassembler.cpp:226-231 | both selections in sequence keep all of this: every transaction is final, none is shielded during maintenance, and outside a block that ran out of candidates each one misses a parent or is kept out |
| Assembler.AddedAccounted | src/blockassembler.cpp:404-411 | when a transaction is added, exactly its waiting children become ready and no other transaction is forgotten |
| Assembler.StillNoneFits | src/blockassembler.cpp:287-336 | what did not fit will not fit a fuller block |
| Assembler.AllAccounted | src/blockassembler.cpp:362-486 | when every transaction is in, waiting or refused, the block is full |
| Assembler.BestFirst | src/blockassembler.cpp:368-380 | scanning by falling score, and trying those made ready first, passes over a higher score only for a reason |
| Assembler.OutrankedAfter | src/blockassembler.cpp:445-484 | the same by priority, also after an early stop |
| MnPayments.AddPayee | src/masternode-payments.h:104-117 | one payee's count grows by the increment, no other changes, and the order stays |
| MnPayments.GetPayee | src/masternode-payments.h:119-132 | the first payee with the most votes; none only when all counts are negative |
| MnPayments.TallyAccepts | src/masternode-payments.cpp:503-546 | accepts exactly when nobody has six votes or one who has is paid the required amount |
| MnPayments.AddKeepsTallies | src/masternode-payments.cpp:476-501 | storing a vote under a new hash and counting it keeps every tally equal to the stored votes |
| MnPayments.CleanKeepsTallies | src/masternode-payments.cpp:588-608 | dropping old votes together with their heights' tallies keeps them equal |
| MnPayments.TallyHasVotes | src/masternode-payments.cpp:588-608 | no tally is left for a height without votes |
| MnPayments.HeightZeroMayFail | src/masternode-payments.cpp:308-310 | six votes for height zero make a right tally that an unfilled transaction does not satisfy |
| MnPayments.Payments.constructor | src/masternode-payments.h:238-241 | no votes and no tallies |
| MnPayments.Payments.Clear | src/masternode-payments.h:243-248 | no votes and no tallies afterwards |
| MnPayments.Payments.CanVote | src/masternode-payments.h:260-273 | refuses exactly the height last voted for, and remembers the height |
| MnPayments.Payments.AddWinningMasternode | src/masternode-payments.cpp:476-501 | accepts exactly new votes not too far ahead; the tallies count the votes afterwards and other heights are untouched |
| MnPayments.Payments.CleanPaymentList | src/masternode-payments.cpp:588-608 | keeps exactly the votes, and the tallies, that are at most 1000 blocks old or at most five quarters of the number of masternodes; the tallies count the votes afterwards |
| MnPayments.Payments.GetBlockPayee | src/masternode-payments.cpp:441-448 | a payee exactly for heights with votes, and the first one with the most |
| MnPayments.Payments.IsTransactionValid | src/masternode-payments.cpp:577-586 | accepts exactly what the height's tally accepts, and everything where there is none |
| MnPayments.Payments.FillBlockPayee | src/masternode-payments.cpp:308-352 | a stake block gets the payment as one more output, any other exactly two outputs that add up to the block value; the result satisfies the tallies exactly unless the height is zero and the transaction did not satisfy them before |

## Left out

- AddrManFile.PruneHomeless: the entries to delete are collected before the loop, where the source decides while iterating; deleting one entry does not change whether another is to go.
- Assembler.Assembler.AddScoreTxs: scores and priorities are arbitrary numbers that the orders follow, and the fee rate test and the free-transaction test are arbitrary functions, because they are computed with floating point or live in the mempool.
- Bloom.Filter.constructor: the number of words and of hash functions are arguments; the sizing formulas use floating point.
- Cuckoo.Cache.constructor: size and depth limit are arguments; `Setup` derives them.
- Cuckoo.Setup: the logarithm is exact, where the source takes it in single precision, which can round up just below a power of two.
- Address selection for connections (`Select_`, `GetChance`): its loops end only with probability one and weigh by floating point.
- Address manager: wrap-around of 32-bit counters and times, and the network classification of addresses.
- CoinsBlocks.ConnectBlock: a commitment tree is the list of its commitments, so that it is never full; the comparison of its root with the block header is not modelled.
- Coins: caches that share a parent, memory accounting (`cachedCoinsUsage`), crash recovery and partial batches of the database, the checks of a block and of its inputs before it is applied (`HaveInputs`), the address, spent and supply indexes, and the banned outputs and asset transactions that connecting and disconnecting treat apart.
- MerkleComputation.Compute: more than 2^31 leaves, where the 32-bit count of the source wraps around.
- Merkle: block filtering (`CMerkleBlock`), and widths at which the 32-bit shifts of the source would overflow; the transaction limit keeps far below.
- Check queue: shutting down (`fQuit`) and thread interruption.
- Base58: the characters are read first and converted afterwards, where the source does both in one pass; buffers are indexed from the least significant digit, as the source's reverse iterators do.
- Bech32: the register is a sequence of 30 bits rather than a 32-bit word. That four changes within 89 symbols are detected too is not proved: it holds by enumeration of the code words, not by the structure of the code.
- Cuckoo cache: atomic memory ordering of the flags, which are modelled as a sequential array; `BitFlags` shows that the packing behaves as one.
- Masternode payments: signatures, network messages, scheduling (`IsScheduled`, `ProcessBlock`), saving to disk, and budget payments.
- Everything else of the node: networking, RPC, wallet, scripts, consensus rules, storage and the cryptographic primitives.
