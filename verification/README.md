# A verified model of the chain engine

This project models the parts of the repository that decide what the ledger is: how blocks are
chosen, connected, disconnected and reset, what the consensus rules around a block compute, how
merkle trees and merkle blocks are built and read, and three smaller cores (multisignature signing,
coin records, funding). It is written in Dafny 4.11 and is checked with

    dafny verify dfyconfig.toml

## How it is laid out

| files | what they model |
|---|---|
| `Primitives` | outputs, transactions, coins, blocks, ancestors |
| `Ledger`, `Totals`, `Replay` | the reference meaning of connecting and disconnecting: coins, undo log, totals and address index as functions of the chain |
| `CoinStore`, `BlockInputs`, `BlockTrail` | coin views, undo logs and the verification of a block's inputs, as classes and methods proved against the ledger |
| `BlockRules` | which blocks are accepted and what comes of them, said of the coins before and after each transaction |
| `ChainRecords`, `ChainStore` | the records of the chain database and the class that writes them in atomic batches |
| `Forks`, `Orphans`, `Outcomes`, `Chain` | fork points, the orphan pool, what becomes of a block and of the orphans behind it as functions of the state before, and the chain object proved against them |
| `Witness` | a run of the chain object in which a reorganization fails, and a reset after it |
| `Mining`, `Gathering`, `Collecting` | a chain that pays out its subsidies, built by the chain object, and blocks on it: one that spends a coin it makes, one that collects a fee |
| `Heaviest` | a run of the chain object in which the branch with fewer blocks and more work wins |
| `HeaderRules` | the checks of bits and time in a header, and what they leave true of the stored blocks over whole runs of the chain object |
| `Compact`, `Retarget`, `Consensus`, `MedianTime`, `Deployments`, `SequenceLocks` | targets and proofs, difficulty, subsidy, median time past, version-bits deployments (BIP9), relative locks (BIP68) |
| `Merkle`, `PartialMerkle`, `MerkleNodes`, `MerkleBlock`, `Sanity` | merkle trees, partial merkle trees (BIP37) and which of their nodes are sent, checks on block bodies |
| `Compress`, `CoinRecords`, `UndoRecords`, `StateRecord` | the amount codec, the bytes of coins, undo logs and totals, and which of a chain survive them |
| `Multisig`, `Funding` | slot-by-slot multisignature signing; coin selection and fees |
| `Arithmetic`, `Picks` | facts about quotients and products; picking from a list in order |

A block is identified with its hash: equal hashes mean equal header, transactions and ancestors. So
a block value determines its ancestors, and heights and total work are functions of the block. The
hash of two merkle nodes is an injective constructor. Amounts are mathematical integers.

The central invariant is `ChainRecords.Consistent`: the height index, the next-block index, the
coins, the undo logs, the address index and the totals are those that replaying every block from
genesis to the recorded tip gives. `ChainStore.ChainDB.Valid` and `Chain.Chain.Ready` contain it; the
constructors establish it and every operation keeps it, including a reorganization that fails
halfway. `TreeOk` says in addition that the block tree has no gaps and that the tip list holds exactly
the childless blocks; adding blocks keeps it, and for a reset the exact condition is proved.

## Where the code does less than one would expect

- After a reset to the current tip, the tip list misses the tip exactly when the tip had a stored
  child (`ChainStore.ChainDB.Reset`). From any genesis block, four calls lead there: two blocks on it,
  the second of which claims more than the subsidy, a block on that one, which sets off a reorganization
  that fails, and a reset to where it ended. The three blocks carry the bits and times the header checks
  demand, and nothing but the claim is wrong (`Witness.LostTip`, `Witness.RulesLetThem`).
- A reorganization that fails can leave the tip with less work than it had (`Witness.ThirdBlock`;
  `Witness.FirstBlockDecides`: exactly when the first block of the other branch claims too much). A best tip stays best exactly
  when nothing is refused on the way or the place where the refusal leaves the tip has the work of the
  old tip. For a block that is itself refused, that place is the old tip or the last good block of its
  branch (`Outcomes.BestKeptExactly`, `Chain.Chain.Add`).
- The compact encoding is accurate to 15 bits and keeps the order exactly below 2^2039; from there the
  exponent overflows its byte (`Compact.Accuracy`, `Compact.MonotoneExactly`,
  `Compact.OrderLostOnOverflow`). Encoding a decoded target again gives the same bits exactly when the
  exponent left in the byte drops no set bit of the mantissa (`Compact.Idempotent`).
- The subsidy comes back in full in era 32, because the shift count is taken modulo 32
  (`Consensus.RewardComesBack`). Up to a height it rises nowhere exactly when the era of that height is
  below 32 (`Consensus.RewardNeverRises`); that no earlier height was paid less holds again from era 100
  on and in eras that are at least 10 modulo 32 (`Consensus.NonePaidLess`).
- Two different lists of merkle leaves can build the same root without the flag, exactly when their
  lengths give trees of different depth (`Merkle.SameRootExactly`, `Merkle.InnerNodeAsLeaf`). The flag is
  also raised for two equal nodes below the root, where no shorter list exists
  (`Merkle.MalleatedExactly`, `Merkle.TwinsAreNotAmbiguous`).
- A coin can be read back from its bytes exactly when its version and value are below 2^53, its height
  below 2^31 - 1 and its script not oversized (`CoinRecords.CoinRoundTrip`); the largest allowed amount,
  9886117450 * 10^11, is far above 2^53. A coin worth
  that much can still be made and spent in one block. That block connects, but its undo log cannot be
  read back, so it cannot be disconnected (`UndoRecords.UndoSurvives`, `Gathering.LocalCoinLost`); the
  chain that pays out its subsidies has room for one at height 676 (`Gathering.GatheringLost`).
- The totals record can be read back exactly when counts and value are below 2^53
  (`StateRecord.StateSurvives`). With eras of more than 176 blocks, that much has been paid out at height
  176: a chain that pays out its subsidies can be opened again up to height 175 and no further
  (`Mining.TotalsSurvive`, `Mining.Mine`).
- The loop that is to settle fee and coins runs once. The fee is the estimate for the coins that cover
  the least fee, and coins taken to cover that estimate are not estimated again
  (`Funding.CoinSelector.SelectEstimate`); with two coins this already leaves the fee too small
  (`Funding.FeeFallsShort`).
- The walk over deployment windows gives the BIP9 state except at a window whose median time is at or
  past the timeout but before the start time (`Deployments.WalkedIsAfter`, `Deployments.WalkStopsEarly`).

## Model

| member | source | states |
|---|---|---|
| Ledger.DisconnectBlockInverts | src/blockchain/chaindb.js:1762-1866 | for every block that connects, taking it off with its own undo log gives back exactly the coins there were, spends within the block included, and uses the log up to the last entry |
| Totals.ConnectConservesValue | src/blockchain/chain.js:745-840 | the live value after a block is the live value before it, minus the fees, plus what the coinbase pays out, minus what went to unspendable outputs, to the unit |
| Totals.TxDelta | src/blockchain/chaindb.js:1762-1803 | the incremental changes to coin count, coin value and address index made for one transaction are what recounting from scratch would show, and the backward changes undo the forward ones |
| Replay.SupplyBound | src/blockchain/chain.js:745-840 | on every valid chain the coins are never worth more than the subsidies of heights 1 to the tip |
| Replay.NoNullCoins | src/blockchain/chaindb.js:1762-1803 | the null outpoint is never a stored coin, so a coinbase input is never mistaken for a spend |
| CoinStore.OverlayAddTx | src/coins/coinview.js:101-105 | adding a transaction to a view means adding its spendable outputs to the coins seen through it, and every coin the view knew stays known |
| CoinStore.OverlayRemoveTx | src/coins/coinview.js:114-122 | removing a transaction from a view hides exactly the coins under its id, in the database or the view |
| CoinStore.UndoCoins.Apply | src/coins/undocoins.js:128-134 | the last coin logged leaves the log and becomes live in the view again |
| CoinStore.CoinView.AddTx | src/coins/coinview.js:101-105 | the view holds exactly the spendable outputs of the transaction under its id, unspent |
| CoinStore.CoinView.RemoveTx | src/coins/coinview.js:114-122 | the view holds the same outputs, marked spent |
| CoinStore.CoinView.ReadCoin | src/coins/coinview.js:401-413 | found exactly when the view or the database has the coin; the coins seen through the view do not change |
| CoinStore.CoinView.SpendInputs | src/coins/coinview.js:442-466 | for distinct inputs: succeeds exactly when all of them are live, and then the undo log grew by their coins in input order and exactly they are gone |
| CoinStore.CoinView.CheckInputs | src/primitives/tx.js:1666-1709 | the fee is input minus output value, and it is given exactly when every coin is mature, every value and running total is in range and the fee is |
| BlockInputs.VerifyInputs | src/blockchain/chain.js:745-840 | accepts exactly the acceptable blocks (`BlockRules.Acceptable`): from one transaction to the next every input spends a coin there is, no coinbase before its 500th block, amounts and fees are in range, and the coinbase claims no more than the subsidy plus what transactions 1 and up spend beyond their outputs; leaves a view and an undo log that stand for the connected block |
| BlockRules.AcceptedExactly | src/blockchain/chain.js:745-840 | a block connects if and only if there is a course of coins through it that it can afford; that course is the only one and gives the coins, the undo log in order of spending, and the fees |
| Collecting.CollectsTheFee | src/blockchain/chain.js:807-822 | a block at height 501 of a chain that pays out its subsidies, with one spend that leaves a fee, passes if and only if its coinbase claims at most the subsidy and that fee |
| ChainRecords.MainFacts | src/blockchain/chaindb.js:891-907 | a block is on the main chain if and only if the height index names it at its height, and if and only if it is the tip or has a next-block record |
| ChainRecords.MainHashAt | src/blockchain/chaindb.js:1388-1426 | the height index holds the ancestor of the tip at each height up to the tip and nothing above |
| ChainRecords.MainNextAt | src/blockchain/chaindb.js:1388-1426 | the next-block index has an entry exactly for the main-chain blocks below the tip, and it leads to their main-chain child |
| ChainRecords.SaveKeepsTree | src/blockchain/chaindb.js:1388-1426 | saving a block on a stored parent keeps the tree without gaps and the tip list equal to the childless blocks |
| ChainRecords.AlternatesAreAll | src/blockchain/chaindb.js:1631-1689 | with a sound tree, the blocks reached down from the listed tips are all there are off the main chain |
| ChainRecords.SameTipSameLedger | src/blockchain/chain.js:879-1056 | two databases with the same tip agree on coins, undo logs, address index, totals and both main-chain indexes, however either got there |
| ChainRecords.StateCounts | src/blockchain/chaindb.js:2141-2165 | in every consistent database the totals are the number and sum of the stored coins, and the sum is within the subsidies |
| ChainStore.ChainDB.constructor | src/blockchain/chaindb.js:542-549 | a new database holds genesis alone, is consistent, and lists genesis as its only tip |
| ChainStore.ChainDB.ConnectBlock | src/blockchain/chaindb.js:1762-1803 | within a batch: coins, address index and totals become those of the connected block, its undo log is stored unless empty |
| ChainStore.ChainDB.DisconnectBlock | src/blockchain/chaindb.js:1812-1866 | within a batch: coins, address index and totals become those before the block, the log is used up, its record is gone |
| ChainStore.ChainDB.IndexTx | src/blockchain/chaindb.js:1913-1951 | the address index loses the spent coins' entries and gains the outputs' entries |
| ChainStore.ChainDB.UnindexTx | src/blockchain/chaindb.js:1960-1993 | the address index gains the restored coins' entries and loses the outputs' entries |
| ChainStore.ChainDB.IsMainChain | src/blockchain/chaindb.js:891-907 | says whether the entry's block is the tip or an ancestor of it |
| ChainStore.ChainDB.GetAncestor | src/blockchain/chaindb.js:436-458 | the fast path through the height index and the walk along parents give the same ancestor; nothing for a negative height |
| ChainStore.ChainDB.SaveAlternate | src/blockchain/chaindb.js:1388-1410 | a block stored off the main chain changes entries, heights, data and tip list only |
| ChainStore.ChainDB.Save | src/blockchain/chaindb.js:1388-1426 | a block stored on top of the tip: every record is that of the new tip |
| ChainStore.ChainDB.Reconnect | src/blockchain/chaindb.js:1454-1478 | a stored block put on top of the tip: every record is that of the new tip, the tree is untouched |
| ChainStore.ChainDB.Disconnect | src/blockchain/chaindb.js:1510-1533 | every record is that of the parent, the tree is untouched |
| ChainStore.ChainDB.ReconnectThenDisconnect | src/blockchain/chaindb.js:1454-1533 | a block put on top of the tip and taken off again leaves every record and total as it was: coins, undo logs, address index, totals, height and next-block indexes |
| ChainStore.ChainDB.DisconnectThenReconnect | src/blockchain/chaindb.js:1454-1533 | a tip taken off and put back on leaves every record and total as it was |
| ChainStore.ChainDB.RemoveChains | src/blockchain/chaindb.js:1631-1689 | exactly the blocks off the main chain below the listed tips are gone, in one batch; a missing ancestor leaves everything as it was |
| ChainStore.ChainDB.Reset | src/blockchain/chaindb.js:1556-1625 | with a sound tree it succeeds exactly for main-chain blocks, leaves that chain and nothing else, and the tip list is sound again if and only if the target is not the old tip or the old tip had no stored child |
| Forks.ForkIsHighest | src/blockchain/chain.js:850-873 | the fork point is a common ancestor and every common ancestor is an ancestor of it |
| Forks.BranchMember | src/blockchain/chain.js:879-926 | the branch between a block and a fork point holds exactly the blocks above the one and up to the other |
| Forks.EventsFollowBranch | src/blockchain/chain.js:879-926 | walking down disconnects each block of the branch once from the top, walking up connects each once from the bottom |
| Chain.Chain.VerifyContext | src/blockchain/chain.js:180-206 | accepts exactly the blocks that pass in the context of the tip, and then with a view prepared for connecting |
| Chain.Chain.FindFork | src/blockchain/chain.js:850-873 | ends, on any two entries, at their highest common ancestor; fails only if the tree has gaps |
| Chain.Chain.Reorganize | src/blockchain/chain.js:879-926 | disconnects exactly the old branch, then reconnects the new one up to the parent of the competitor or to the last block that passes; no block is added or lost, and the first that fails is marked invalid unless the fault could be in the copy |
| Outcomes.LastGoodIs | src/blockchain/chain.js:905-925 | the block below the first one that fails is the highest one whose whole branch passes, and the failing one is what gets marked invalid |
| Chain.Chain.SetBestChain | src/blockchain/chain.js:1071-1128 | succeeds exactly when the body and every block of the branch pass in their own context; the chain settles at the new block or below the first that fails, with the events of just that walk and exactly the culprit marked invalid |
| Chain.Chain.SaveAlternate | src/blockchain/chain.js:1136-1183 | stores the block exactly when body and header pass; tip and coins stay |
| Chain.Chain.ConnectBlock | src/blockchain/chain.js:1428-1482 | more work than the tip makes the block the tip, equal work leaves the first seen, however many blocks either has; the exact tip, events and invalid marks after a failure; sound trees stay sound; a best tip stays best exactly when its work does not fall |
| Chain.Chain.Add | src/blockchain/chain.js:1353-1417 | which blocks are duplicates, held back, refused or connected; the tip, the blocks stored, the orphans left and the invalid marks, exactly, as a function of the state before, waiting orphans included; that only the block and orphans are added, each on a stored parent; that no orphan or orphan's parent is ever stored; and exactly when a best tip stays best |
| Chain.Chain.HandleOrphans | src/blockchain/chain.js:1488-1518 | ends, with no orphan waiting for a stored block; the orphan waiting for the block is handed in, then the one waiting for that, up to the first refused, and tip, stored blocks, remaining orphans and invalid marks are exactly what that gives |
| Outcomes.OrphansAreStored | src/blockchain/chain.js:1488-1518 | orphans leave the pool only to be stored, but for the last one, exactly when it is refused; nothing else is stored |
| Outcomes.BestKeptExactly | src/blockchain/chain.js:1353-1518 | from the state before the call: a best tip is best again after a block and the orphans behind it exactly when none is refused or the tip is left with the work it had; a block refused with more work than the tip leaves it at the last good block of its branch |
| Chain.Chain.Reset | src/blockchain/chain.js:1203-1228 | the chain up to the target and no orphan is left, and the target has the most work of what is left |
| Outcomes.WorkGrowsStrictly | src/blockchain/chainentry.js:117-139 | work strictly increases along parents when proofs are positive |
| Outcomes.WorkIsSum | src/blockchain/chainentry.js:126-139 | the work recorded for a block is the sum of the proofs of all blocks of its chain |
| Heaviest.Run | src/blockchain/chain.js:1428-1482 | from any genesis block on a network that retargets: a branch whose window took the planned time is the chain, and one that is a block shorter, with a target of a quarter, takes over |
| Heaviest.RulesLetRace | src/blockchain/chain.js:412-446 | all blocks of that run carry the bits and times demanded; the main network has such a run (`Heaviest.MainRaces`) |
| Witness.FirstBlockDecides | src/blockchain/chain.js:879-926 | two branches on any genesis, the second longer: the tip moves to its end if its first block claims no more than the subsidy, and otherwise ends at genesis, below the work it had, with that block marked invalid |
| Witness.RulesLetThem | src/blockchain/chain.js:412-446 | the blocks of the run pass the checks of bits and time, in every network whose first retarget comes later or that does not retarget |
| Witness.ThirdBlock | src/blockchain/chain.js:879-926 | a run of the chain object, on a database that is consistent with a sound tree throughout: the tip loses work when the first block of the longer branch claims more than the subsidy, and has the most work otherwise; no other check fails |
| Witness.LostTip | src/blockchain/chaindb.js:1556-1625 | that run, with bits and times of every header checked and all other checks passing, followed by a reset to the block it ended at: genesis is left and the tip list is empty |
| Orphans.OrphanPool.AddOrphan | src/blockchain/chain.js:1655-1668 | both maps gain the orphan and stay paired one to one |
| Orphans.OrphanPool.RemoveOrphan | src/blockchain/chain.js:1676-1689 | both maps lose the orphan and stay paired one to one |
| Orphans.OrphanPool.ResolveOrphan | src/blockchain/chain.js:1708-1715 | gives out the one orphan waiting for the block, if any, and none waits for it afterwards |
| Orphans.OrphanPool.LimitOrphans | src/blockchain/chain.js:1738-1760 | keeps exactly the orphans younger than an hour, less one of the oldest when they reach the limit |
| Orphans.OrphanPool.StoreOrphan | src/blockchain/chain.js:1622-1646 | one waiting for the same parent makes way, the pool is pruned as above, the orphan goes in, nothing else changes, and the pool stays within max(1, maxOrphans) |
| HeaderRules.VerifyHeader | src/blockchain/chain.js:412-446 | accepts exactly the headers with the bits demanded, a time after the median time past and at most two hours ahead; only the last may be no fault of the block |
| HeaderRules.RulesAreKept | src/blockchain/chain.js:412-435 | if the header checks demand the right bits and a time after the median time past, every block ever stored, on any branch, follows those rules all the way down |
| HeaderRules.Run | src/blockchain/chain.js:412-435 | whatever sequence of blocks and resets a chain is given from genesis on, and whatever the other checks answer each time, it stays in order and every block stored, on any branch, carries the bits and times demanded all the way down |
| HeaderRules.StoredChains | src/blockchain/chain.js:412-435 | so on every stored chain the median time past never falls, no target is above the limit, and passed locks stay passed |
| HeaderRules.StoredLocks | src/blockchain/chain.js:2601-2668 | on every stored chain, a transaction whose relative locks passed at a block passes at every descendant |
| Sanity.CheckSanity | src/primitives/tx.js:1364-1412 | accepts exactly the transactions with inputs and outputs, values and totals in range, distinct inputs, and no null input outside a coinbase |
| Sanity.CheckBody | src/primitives/block.js:394-437 | accepts exactly the bodies that are unambiguous, start with their only coinbase, and consist of sane transactions |
| Sanity.RootStandsForOneBody | src/primitives/block.js:394-437 | two accepted bodies with the same merkle root list the same transactions in the same order |
| Compact.Accuracy | src/protocol/consensus.js:270-328 | decoding an encoded number never exceeds it, is exact below 2^23, and is within 2^-15 of it if and only if the number is below 2^2039 |
| Compact.Idempotent | src/protocol/consensus.js:270-328 | for every number: encoding its decoded target again gives the same bits if and only if the exponent left in the byte drops no set bit of the mantissa |
| Compact.MonotoneExactly | src/protocol/consensus.js:270-328 | larger numbers decode to no smaller targets among all numbers below a bound if and only if the bound is at most 2^2039 |
| Compact.OrderLostOnOverflow | src/protocol/consensus.js:301-328 | at 2^2039 the order is lost: it decodes to zero |
| Compact.ProofPositive | src/blockchain/chainentry.js:117-124 | a proof is positive exactly when the target is positive and below 2^256 |
| Compact.ProofIsQuotient | src/blockchain/chainentry.js:117-124 | the proof is the number of times the target and one go into 2^256 |
| Compact.HarderProvesMore | src/blockchain/chainentry.js:117-124 | a smaller positive target never proves less |
| Compact.EasiestBits | src/blockchain/chainentry.js:117-124 | the easiest bits of the main network stand for 0xffff times 2^208 and prove 4295032833 |
| Compact.Decodes | src/protocol/consensus.js:270-299 | what every word of bits stands for: a byte exponent, a sign bit and a mantissa |
| Retarget.Retarget | src/blockchain/chain.js:2339-2363 | without retargeting the old bits; otherwise bits whose target is the old one times the time taken over the time planned, rounded down by less than 2^-15, with the time counted as a quarter of the plan at least and four times the plan at most; the easiest bits when that passes the limit |
| Retarget.OnPlanStays | src/blockchain/chain.js:2339-2363 | a window that took exactly the planned time gives the old target back |
| Retarget.LongerIsEasier | src/blockchain/chain.js:2339-2363 | a window that took longer never gives a harder target, when the easiest bits stand for the limit, as on the main network (`Retarget.MainLimit`) |
| Retarget.NextBitsBounded | src/blockchain/chain.js:2339-2363 | the next target is never above four times the old one, nor above the limit when the old one was not |
| Retarget.GetTarget | src/blockchain/chain.js:2289-2331 | within a window the bits of the parent; on networks with resets the easiest after twice the spacing and otherwise those of the last block set in earnest; at the end of a window those adjusted by the time since its first block |
| Retarget.TargetsWithinLimit | src/blockchain/chain.js:2289-2363 | along every chain whose blocks carry the bits demanded, no target exceeds the limit |
| Consensus.SubsidyIs | src/protocol/consensus.js:390-408 | 512 coins over two to the era, in whole coins, with the era modulo 32, and nothing from era 100 on |
| Consensus.RewardNeverRises | src/protocol/consensus.js:390-408 | the subsidy rises nowhere up to a height if and only if the era of that height is below 32 |
| Consensus.NonePaidLess | src/protocol/consensus.js:390-408 | no earlier height has a smaller subsidy if and only if the era is below 32, at least 100, or at least 10 modulo 32 |
| Consensus.RewardComesBack | src/protocol/consensus.js:390-408 | era 31 pays nothing and era 32 pays the full subsidy |
| MedianTime.GetMedianTime | src/blockchain/chain.js:315-344 | the middle of the sorted times of up to eleven blocks, or of a new time and up to ten blocks |
| MedianTime.LastTimesAre | src/blockchain/chain.js:315-344 | the times looked at are those of the block and its nearest ancestors, newest first |
| MedianTime.MedianAtMost | src/blockchain/chain.js:341-343 | the median is at most x exactly when more than half of the times are |
| MedianTime.MtpRises | src/blockchain/chain.js:428-435 | a block later than its parent's median time past does not lower it, the first ten blocks included |
| MedianTime.MtpNeverFalls | src/blockchain/chain.js:428-435 | so the median time past never falls from an ancestor to a descendant |
| Deployments.GetState | src/blockchain/chain.js:2406-2521 | for every deployment and whatever correct states are cached, the result is that of the walk with nothing cached, and, with times as the header rules leave them, the BIP9 state if and only if the last complete window does not end between timeout and start time; only correct entries are added, none is lost, and the state of the last complete window is cached afterwards |
| Deployments.Transition | src/blockchain/chain.js:2464-2515 | a deployment not yet started fails at the timeout and starts at the start time; a started one fails at the timeout, and before it locks in if and only if the heights of the window whose versions read 001 on top with the bit set number at least the threshold; a locked-in one becomes active; counting never leaves the chain |
| Deployments.EarlyIsDefined | src/blockchain/chain.js:2446-2452 | before the start time the recursion gives DEFINED whatever lies below, so stopping there is right |
| Deployments.WalkedIsAfter | src/blockchain/chain.js:2429-2521 | the walk that stops at the start time gives the state of the BIP9 recursion if and only if the median time is not in between timeout and start time |
| Deployments.WalkStopsEarly | src/blockchain/chain.js:2446-2452 | a chain of one block on which the walk says DEFINED and BIP9 says FAILED |
| Deployments.StateStep | src/blockchain/chain.js:2406-2427 | from one block to the next the state stays, unless a window ends there and it moves once |
| Deployments.FinalIsForever | src/blockchain/chain.js:2504-2508 | ACTIVE and FAILED hold for every descendant |
| Deployments.StatesMoveForward | src/blockchain/chain.js:2464-2515 | states never go back, and LOCKED_IN is never followed by FAILED |
| Deployments.LockedInActivates | src/blockchain/chain.js:2500-2503 | LOCKED_IN lasts one window |
| Deployments.ActiveExactly | src/blockchain/chain.js:2406-2521 | a deployment is locked in or active if and only if, at or below, a window ended after it had started and before the timeout in which at least the threshold of blocks signalled |
| Deployments.WindowDecides | src/blockchain/chain.js:2464-2515 | from block to block the state stays, unless a window ends there and decides as above |
| Deployments.StateCache.Drop | src/blockchain/chaindb.js:2237-2245 | every noted update is gone and what stays was cached before |
| Deployments.DropKeepsCorrect | src/blockchain/chaindb.js:2237-2245 | dropping updates keeps a correct cache correct |
| SequenceLocks.GetLocks | src/blockchain/chain.js:2601-2643 | the largest height and time any enabled input asks for, or -1 |
| SequenceLocks.VerifyLocks | src/blockchain/chain.js:2601-2668 | passes exactly when every enabled input meets its own BIP68 condition |
| SequenceLocks.LockForms | src/blockchain/chain.js:2601-2643 | bit 31 frees an input; otherwise the low 16 bits count blocks, or with bit 22 units of 512 seconds from the median time before the coin |
| SequenceLocks.MaturedStays | src/blockchain/chain.js:2601-2668 | an input that has matured at one block has matured at every descendant |
| SequenceLocks.LocksStay | src/blockchain/chain.js:2601-2668 | a transaction that passes at one block passes at every descendant: wherever the tip is when its coins are confirmed, and with unconfirmed coins when each block is the tip at its time |
| Merkle.CreateTree | src/crypto/merkle.js:23-55 | the array holds all levels in order, and the flag tells whether some level ends in two equal nodes |
| Merkle.CreateRoot | src/crypto/merkle.js:63-67 | the last node of the array is the root of the leaves |
| Merkle.SmallRoots | src/crypto/merkle.js:23-55 | the roots of one, two and three leaves |
| Merkle.CreateBranch | src/crypto/merkle.js:76-94 | the siblings on the way up, found in the array by level offsets |
| Merkle.DeriveRoot | src/crypto/merkle.js:102-115 | the hash folded with the branch by the bits of the index |
| Merkle.BranchLeadsToRoot | src/crypto/merkle.js:76-115 | a leaf's branch derives the root, for every list and index |
| Merkle.BranchProvesLeaf | src/crypto/merkle.js:102-115 | any branch of that length that derives the root belongs to that leaf |
| Merkle.RootDeterminesLeaves | src/crypto/merkle.js:23-55 | two lists that build without the flag and have equal roots are equal |
| Merkle.SameRootExactly | src/crypto/merkle.js:23-55 | for any nodes, two unflagged lists with equal roots are equal if and only if their lengths give trees of the same depth |
| Merkle.InnerNodeAsLeaf | src/crypto/merkle.js:23-55 | two lists with the same root and no flag, one with an inner node as its leaf |
| Merkle.MalleatedExactly | src/crypto/merkle.js:36-39 | the flag is raised exactly when a shorter list has the same root or the two nodes below the root are equal |
| Merkle.TwinsAreNotAmbiguous | src/crypto/merkle.js:36-39 | two equal transactions raise the flag although no shorter list has their root |
| Merkle.CreateMerkleRoot | src/primitives/block.js:267-277 | the root of the transaction ids, or nothing when the flag is raised |
| PartialMerkle.FlatHoldsTop | src/primitives/merkleblock.js:557-575 | the array built from the bottom holds at each level and position the node the recursion from the top computes |
| PartialMerkle.Budgets | src/primitives/merkleblock.js:577-594 | a subtree takes no more hashes than flag bits and no more than its leaves |
| PartialMerkle.DecodeEncoded | src/primitives/merkleblock.js:202-270 | reading what was written for any subtree gives its hash and exactly its matched leaves, whatever follows |
| PartialMerkle.DecodeSound | src/primitives/merkleblock.js:202-245 | for arbitrary flags and hashes, a reading that ends in the true node reports only real leaves, in increasing order |
| MerkleBlock.PackFlags | src/primitives/merkleblock.js:614-618 | bit p of the bytes is flag p, and the rest is clear |
| MerkleBlock.Encoder.Traverse | src/primitives/merkleblock.js:577-594 | appends the flags and hashes of the subtree; a node is opened if and only if it lies above the leaves and some leaf below it is matched (`MerkleBlock.Encoder.AnyBelow`) |
| MerkleBlock.FromMatches | src/primitives/merkleblock.js:550-637 | a flag for every node visited, set exactly when a leaf at or below is matched, and a hash for every node sent, both from left to right: visited are the root and the nodes whose parent has a matched leaf below, sent are of these the leaves and the nodes without a match; the rest of the last byte is clear |
| MerkleNodes.WrittenExactly | src/primitives/merkleblock.js:577-594 | the flags and hashes written are those of exactly these nodes, each once and in order |
| MerkleBlock.NothingMatched | src/primitives/merkleblock.js:550-637 | with nothing matched the merkle block is the root and one clear flag byte |
| MerkleBlock.Decoder.Traverse | src/primitives/merkleblock.js:202-245 | the imperative traversal computes the recursive reading, counters, matches, indexes and map included |
| MerkleBlock.ExtractTree | src/primitives/merkleblock.js:186-270 | each failed check with its error, in order, or the tree |
| MerkleBlock.NothingLeftOver | src/primitives/merkleblock.js:239-270 | to an accepted merkle block no hash and no flag byte can be added |
| MerkleBlock.TwinsRefused | src/primitives/merkleblock.js:186-245 | two equal neighbours, no transactions, and too many are refused with their errors |
| MerkleBlock.ExtractUndoesFromMatches | src/primitives/merkleblock.js:186-270 | for distinct leaves, extraction gives the true root and exactly the matched positions and ids in order, with all budget checks passing, unless there are more transactions than a reader accepts |
| MerkleBlock.SelectedExactly | src/primitives/merkleblock.js:222-226 | a position is reported exactly when its leaf is matched |
| MerkleBlock.ExtractSound | src/primitives/merkleblock.js:186-270 | whatever a peer sends, a tree with the true count and root reports only actual transactions at their own positions |
| Multisig.ScriptVector | src/primitives/mtx.js:586-602 | the template is the dummy and one free slot for each key, for holders of a key only |
| Multisig.SignVector | src/primitives/mtx.js:755-831 | the slots after one signing, and when it is refused; the closing assertions hold |
| Multisig.AnyOrderSigns | src/primitives/mtx.js:755-831 | any m of the keys in any order end in the dummy and the m signatures in key order, and signing on changes nothing |
| Multisig.InKeyOrderPicks | src/primitives/mtx.js:755-831 | the signatures in key order are those of the chosen keys, each once, at increasing positions |
| Multisig.SignTwice | src/primitives/mtx.js:799-804 | signing twice with one key changes nothing |
| Multisig.SignFinal | src/primitives/mtx.js:773-774 | a finished input is left alone whoever signs |
| Compress.CompressValue | src/coins/compress.js:195-210 | the loop takes zeros off up to nine times and packs what is left |
| Compress.DecompressValue | src/coins/compress.js:220-246 | the loop puts the zeros back |
| Compress.CodeIs | src/coins/compress.js:195-210 | the code of every amount, from its leading digits and the number of zeros after them |
| Compress.DecompressUndoesCompress | src/coins/compress.js:195-246 | no amount is lost |
| Compress.CompressUndoesDecompress | src/coins/compress.js:195-246 | every natural number is the code of an amount |
| CoinRecords.VarintRoundTrip | src/utils/encoding.js:383-469 | a number comes back from its variable-length form exactly when it is below 2^53 |
| CoinRecords.VarintBytes | src/utils/encoding.js:383-469 | the bytes of a number in each of the four forms |
| CoinRecords.ScriptRoundTrip | src/coins/compress.js:32-149 | a script comes back exactly when it is not oversized, and takes the bytes it was sized for |
| CoinRecords.CoinRoundTrip | src/coins/coinentry.js:154-252 | a coin comes back from its bytes if and only if version, value, height and script fit the record; the buffer is sized exactly |
| CoinRecords.CoinBytes | src/coins/coinentry.js:154-252 | the record of a coin byte for byte |
| CoinRecords.UndoRoundTrip | src/coins/undocoins.js:63-90 | an undo log comes back in order if and only if every coin fits and their number fits 32 bits |
| UndoRecords.CoinSurvives | src/coins/coinentry.js:154-252 | a coin of a valid chain comes back from its record if and only if its value is below 2^53 and its height fits the field |
| UndoRecords.UndoSurvives | src/coins/undocoins.js:63-90 | the undo log of a connected block comes back from its record if and only if every coin the block spends is worth less than 2^53, and heights and their number fit |
| StateRecord.StateRoundTrip | src/blockchain/chaindb.js:2167-2185 | the totals come back from their 56 bytes if and only if each of the three numbers is below 2^53 |
| StateRecord.StateSurvives | src/blockchain/chaindb.js:2167-2185 | in every consistent database the totals record can be read back if and only if the counts and the value of the stored coins are below 2^53, which subsidies below 2^53 guarantee for the value |
| Mining.TotalsSurvive | src/blockchain/chaindb.js:2167-2185 | on a chain that pays out its subsidies the totals can be read back if and only if the subsidies so far are below 2^53: up to height 175 and no further, with eras of more than 176 blocks |
| Mining.Mine | src/blockchain/chain.js:1353-1417 | that chain, of any length, is what the chain object builds from a new database, with those totals |
| Mining.MinedFollows | src/blockchain/chain.js:412-446 | its blocks carry the bits and times demanded, until the first retarget or in a network without |
| Mining.MinedCoins | src/blockchain/chain.js:745-840 | it is valid at every height, its coins are its coinbases, and they are worth all the subsidies so far |
| Gathering.LocalCoinLost | src/blockchain/chaindb.js:1812-1866 | on any valid chain, a block that gathers coins into one of 2^53 or more and spends it at once connects, and no record of its undo log can be read back |
| Gathering.GatheringLost | src/blockchain/chaindb.js:1812-1866 | such a block at height 676 of the chain that pays out its subsidies, on which every coin can be read; it passes the body, bits and time checks |
| CoinRecords.ToRaw | src/coins/undocoins.js:63-73 | the loop writes the count and the coins in order |
| CoinRecords.FromRaw | src/coins/undocoins.js:82-90 | the loop reads as many coins as the count says |
| Funding.Mtx.SubtractFee | src/primitives/mtx.js:1178-1228 | succeeds exactly when someone pays, every payer can give its share and one the remainder, without dust |
| Funding.SubtractsExactly | src/primitives/mtx.js:1178-1228 | the outputs give up exactly the fee, no payer becomes dust, the others stay |
| Funding.CoinSelector.Fund | src/primitives/mtx.js:1726-1739 | takes spendable coins in order until there is enough, not one beyond, or none is left; all of them when asked to |
| Funding.ReachExactly | src/primitives/mtx.js:1726-1739 | taking coins stops right after the first that makes them worth enough, and nowhere else but at the end |
| Funding.UsablePicks | src/primitives/mtx.js:1726-1739 | the coins taken are the spendable ones, each once and in the order they came |
| Funding.CoinSelector.SelectEstimate | src/primitives/mtx.js:1780-1811 | the fee is the capped estimate for exactly the coins that cover the least fee, and coins are then taken in order up to the first that covers it |
| Funding.FeeFallsShort | src/primitives/mtx.js:1780-1811 | a selection of two coins that succeeds with half the fee estimated for them |
| Funding.CoinSelector.Select | src/primitives/mtx.js:1747-1824 | ends; the fee is the capped fixed one or one estimated for coins chosen; it lacks funds only if all spendable coins together do not suffice; the change is what is left over |
| Funding.Mtx.Fund | src/primitives/mtx.js:1238-1268 | inputs equal outputs plus fee, plus change too small to return, so the closing assertions hold; recipients get what they should |

## Left out

- Chain.Chain.VerifyContext: header rules, deployments, locks, sigops and scripts are two predicates that may answer anything, because their code is foreign or modelled apart (`HeaderRules.WithRules` puts the checks of time and bits back in front).
- Chain.Chain.Add: the pending-block queue and the lock around it are not modelled; calls run one after the other.
- Chain.Chain.Reorganize: events other than connect and disconnect are not modelled.
- BlockInputs.VerifyInputs: sequence locks, sigop counts and script verification of the same lines are the `inputs` predicate of a judge, asked right after it.
- ChainStore.ChainDB.IndexTx: the address-to-coin index only; the transaction index and the address-to-transaction index are left out.
- ChainStore.ChainDB.UnindexTx: the same.
- HeaderRules.VerifyHeader: deployment rules on the block version and the lock times of its transactions are left to the header predicate.
- Sanity.CheckSanity: byte size and the coinbase script length are left out, since transactions have no bytes here.
- Sanity.CheckBody: byte sizes and sigop counts are left to the header predicate; the header holds the root of its own body, since a block is its hash.
- ChainStore.ChainDB.Reset: resets are by block, not by height, and not while pruned.
- CoinStore.CoinView.SpendInputs: inputs are distinct, as the sanity check demands before; the original reads four at a time and relies on that.
- SequenceLocks.GetLocks: coins above the block under construction are excluded, because the original asserts that their ancestor exists.
- PartialMerkle.DecodeEncoded: leaves are distinct, as transaction ids of a block are; equal neighbours would be rejected as a mutation.
- Multisig.AnyOrderSigns: keys are distinct; with a repeated key its second slot can never be filled.
- MerkleBlock.FromMatches: the header fields it copies and the list of matched transactions it carries along are left out.
- Witness.ThirdBlock: what the headers hold besides bits and times is left to the judge.
- Funding.CoinSelector.Select: sorting and the size estimate are inputs.
- A received copy whose transactions differ from those its header was made for: a block here is its hash.
- BIP30 freshness: a connected block's ids have no live coins. The original stops checking this after BIP34, and skips two known blocks.
- Simplified verification, pruning, checkpoints and historical blocks: these options are off.
- The entry and coin caches, which agree with the records whatever they hold; the height cache is modelled.
- The object identity of coin entries shared between view and undo log: coins are values, the spent flag belongs to the view.
- The list of invalid blocks never forgets; the original keeps the last 100 (`Chain.Chain.HasInvalid`).
- Chain locators, progress and sync state: they decide nothing about the ledger.
- Disk failures in the middle of a batch: batches are atomic.
- Signing of single-key and nested scripts, and parsing of scripts and transactions.
