# Verified model of the wallet core

This project models the C core of an SPV wallet for Ravencoin (`Modules/core`) in Dafny and
proves what its engines are for. Each module takes the form of the code it models: recursions
and loops over shared cursors, buffers and object fields are methods with invariants, proved
against functions and predicates that say what the result means; the laws that span several
operations, or whole runs, are lemmas about those or contracts of a run.

| module | what it models |
|---|---|
| `PartialMerkle` | decoding filtered-block Merkle trees (the partial Merkle branch format of BIP 37) |
| `BlockChain` | the block-chain state machine: extension, forks, orphans, reorganisation, checkpoints |
| `PublishList` | the list of transactions being published, its parallel arrays and its callbacks |
| `FilteredBlock` | one peer's merkleblock/tx message protocol |
| `Ledger` | recomputing unspent outputs, statuses and balance from the transaction list |
| `CoinSelection`, `Retries` | building a transaction for requested outputs, and for smaller ones when the coins are too many; the maximum sendable amount |
| `GapLimit` | address generation up to the gap limit ("Address gap limit" of BIP 44) |
| `HashSet` | the linear-probing hash set |
| `UInt256`, `Compact`, `DarkGravityWave` | 256-bit limb arithmetic, compact targets, difficulty retargeting |
| `Poly1305` | the authenticator of section 2.5 of RFC 7539 in 26-bit limbs |
| `Base58` | base58 and base58check on digit buffers |
| `Aes`, `Bip38` | AES-256 with an in-place key schedule; passphrase-protected keys (BIP 38) |
| `TxWire` | the transaction wire format |
| `Bits`, `Radix`, `Collections`, `Transactions` | bit operations and positional notation as arithmetic; optional values and sequences; the wallet's transactions |

Conventions. Integers are unbounded, and the source's widths are written out where they matter:
limbs and carries, 32-bit timespans, 8-bit bit counts and shift amounts, signed size bytes.
Hash functions, key derivation, scrypt, addresses of keys and the difficulty verdict are
parameters, so that every law holds for all of them, under hypotheses stated where they are
needed (the pair hash of a Merkle tree is collision-free on the pairs actually hashed and never
zero; key derivation is injective). Clocks, memory moves and messages are parameters or events.
Code the source shares by pointer is modelled by value.

The model follows the code where a reader might expect something else, and says exactly when:

- A rebuilt Merkle root that matches does not by itself vouch for the listed transactions. The decoder
  notes a node with equal halves in its hash cursor, but passes zero up, which the row above takes for a
  missing right branch; the validity test compares the root and does not look at the cursor. The root
  match vouches if and only if the cursor did not end at the marker (`PartialMerkle.Soundness`,
  `PartialMerkle.RootMatchAlone`).
- A publishing callback is lost when it comes with a transaction that is confirmed or already listed, and
  when its transaction confirms before any peer relays it (`PublishList.EffectConserves`,
  `PublishList.LostOnConfirmation`, `PublishList.LostOnSecondPublish`).
- The list of published transactions does not stay complete: a lost connection takes the entries that wait
  for a callback, and a request for an invalid transaction takes that one, while entries that spend them
  stay, and later additions stop at those. For the wallet as it is at the event, it stays complete if and
  only if no entry that stays spends an unconfirmed one that leaves (`PublishList.EffectComplete`,
  `PublishList.GapOnDisconnection`, `PublishList.GapOnInvalid`). A reorganisation that makes an unlisted
  parent unconfirmed again also breaks it, as no event lists that parent; `PublishList.RunComplete` and
  `PublishList.RunListsAncestors` therefore ask that the wallet has no such change between events.
- Building a transaction from more coins than fit can call itself without end: the last output is reduced to
  what the coins that fit leave after the rounded fee, which changes the rounding. It ends if and only if
  what the wallet keeps beside those coins is a multiple of 100 (`Retries.RetriesEnd`); sending everything
  from a wallet of 700 like outputs does not (`Retries.SendingAllNeverReturns`).
- The unspent list keeps an output that a pending transaction spends until another transaction is accepted,
  so a transaction built from it can be invalid at once (`Ledger.NextIsInvalid`,
  `Ledger.ReservedAndUnspent`).
- An invalid character ends base58 decoding with the digits before it instead of failing, so a
  checksummed string followed by anything else still decodes (`Base58.CheckDecodeGarbage`).
- A reorganisation walk leaves the stored blocks exactly when it starts before the main chain has
  reached the last checkpoint, and such a run exists (`BlockChain.Manager.TakeFork`,
  `BlockChain.WalkLeavesStoredBlocks`).
- Division and compacting are right exactly below 2^255, where the 8-bit bit count does not wrap
  (`UInt256.Divide`, `Compact.GetCompact`).
- An unsigned input whose amount is zero is not read back: its amount is not written, but expected when
  reading (`TxWire.ParseExactly`).
- Serializing into a buffer that is too small can report a number other than zero, because a part that
  does not fit counts as nothing (`TxWire.Serialize`, `TxWire.ReportedForTooSmall`).
- The comment above the difficulty verification describes a retarget every 2016 blocks; the code
  retargets every block over up to 180 blocks (`DarkGravityWave`).

`dafny verify dfyconfig.toml` checks the whole project.

## Model

| member | source | states |
|---|---|---|
| PartialMerkle.CeilLog2 | Modules/core/BRMerkleBlock.c:33-38 | the shift-and-mask loop returns the depth of a tree with that many leaves |
| PartialMerkle.DepthByBitTrick | Modules/core/BRMerkleBlock.c:33-38 | floor log plus one unless a power of two equals the least k with 2^k at least n, for every n |
| PartialMerkle.Walk.RootR | Modules/core/BRMerkleBlock.c:288-308 | the index-threading recursion returns the root and leaves both cursors as the reference decoder of the BIP 37 traversal gives them |
| PartialMerkle.Walk.TxHashesR | Modules/core/BRMerkleBlock.c:236-258 | the listing recursion advances both cursors as the reference traversal does, writes exactly the listed txids that fit behind those written before, counts them and leaves the rest of the buffer alone |
| PartialMerkle.TxHashes | Modules/core/BRMerkleBlock.c:262-268 | with no buffer the count needed, with one the listed txids up to its capacity and nothing else changed |
| PartialMerkle.RootIsTopNode | Modules/core/BRMerkleBlock.c:41-47 | hashing row by row with odd rows duplicated gives the same root as the position-indexed node at the top |
| PartialMerkle.PackedFlag | Modules/core/BRMerkleBlock.c:49-65 | bit i of the packed flag bytes is flag i |
| PartialMerkle.NodesDistinct | Modules/core/BRMerkleBlock.c:288-308 | in a tree of distinct nonzero leaves with a collision-free pair hash, nodes of one row at different positions differ, so no complete pair looks like a duplicated one |
| PartialMerkle.DecodeTxsEncoded | Modules/core/BRMerkleBlock.c:236-258 | from any node, listing an encoding yields the matched txids below it and consumes exactly its part of hashes and flags |
| PartialMerkle.DecodeRootEncoded | Modules/core/BRMerkleBlock.c:288-308 | from any node, decoding an encoding yields that node's hash and consumes exactly its part |
| PartialMerkle.Completeness | Modules/core/BRMerkleBlock.c:236-308 | for every list of distinct nonzero txids and every match choice, decoding the partial-tree encoding gives the full tree's root and exactly the matched txids in order |
| PartialMerkle.NodeSound | Modules/core/BRMerkleBlock.c:236-308 | for a decoded node equal to a real node of the same row: both recursions agree and list only leaves below that node, in order, if and only if no node met on the way has its left half missing or equal halves |
| PartialMerkle.Soundness | Modules/core/BRMerkleBlock.c:236-308 | if the decoded root equals the root of a real tree of the same depth, both recursions make the same traversal if and only if the hash cursor did not end at the marker, and then the listed txids are a subsequence of the real leaves |
| PartialMerkle.MarkerMeansGuard | Modules/core/BRMerkleBlock.c:296-304 | the hash cursor ends at the marker if and only if a node with a missing left half or equal halves was met |
| PartialMerkle.RootMatchAlone | Modules/core/BRMerkleBlock.c:288-308 | a root match alone does not vouch for the listed txids: an example block of nonzero hashes under a collision-free hash rebuilds the root of a real tree and lists a txid that is not in it |
| BlockChain.LoadCheckpoints | Modules/core/BRPeerManager.c:1557-1573 | the checkpoints by height and by hash, and as starting block the last one more than a week older than the earliest key, or the first |
| BlockChain.LoadedInv | Modules/core/BRPeerManager.c:1557-1573 | a sorted, height-consistent checkpoint table alone satisfies the chain invariant |
| BlockChain.Manager.constructor | Modules/core/BRPeerManager.c:1557-1573 | a new manager satisfies the chain invariant |
| BlockChain.Manager.VerifyBlock | Modules/core/BRPeerManager.c:1109-1171 | a block passes exactly when it is no transition without 2016 stored ancestors, its difficulty is accepted and it agrees with the checkpoint of its height; no stored block changes |
| BlockChain.Manager.MainChainAt | Modules/core/BRPeerManager.c:1303-1305 | the walk down from the tip ends at the main chain's block of that height |
| BlockChain.Manager.JoinPoint | Modules/core/BRPeerManager.c:1342-1349 | at or above the last checkpoint the reorg walk stops at the highest common ancestor, at or above that checkpoint; below it the walk runs off the stored blocks |
| BlockChain.WalkStep | Modules/core/BRPeerManager.c:1342-1349 | each step of the reorg walk keeps both walkers on their branches and loses no common ancestor |
| BlockChain.Manager.ConfirmBranch | Modules/core/BRPeerManager.c:1359-1379 | the wallet is told the heights of exactly the branch's transactions, from the tip down to just above the join |
| BlockChain.Manager.TakeFork | Modules/core/BRPeerManager.c:1335-1389 | a fork block is stored, and becomes the tip exactly when it is higher, after unconfirming above the highest common ancestor; the walk dereferences only stored blocks exactly when the tip has reached the last checkpoint |
| BlockChain.Manager.TakeExisting | Modules/core/BRPeerManager.c:1296-1319 | a repeated block replaces its copy, the tip's height does not change, and its transactions are confirmed exactly when it is on the main chain |
| BlockChain.Manager.RelayOne | Modules/core/BRPeerManager.c:1187-1389 | each of the nine ways a relayed block is taken, with the complete new blocks, orphans, tip and wallet calls; the invariant is kept and the tip's height never decreases; it fails exactly when the block would overtake a main chain that has not reached the last checkpoint |
| BlockChain.Manager.Relay | Modules/core/BRPeerManager.c:1393-1424 | a relay terminates and is a chain of single relays: each after the first takes exactly the orphan that waits for the block before it, and the chain ends only when none waits or the last relay fails; the invariant is kept |
| BlockChain.Manager.Run | Modules/core/BRPeerManager.c:1187-1424 | every run is the relays it is given, in order, each with the orphans it releases; before and after each relay the invariant holds, and the tip's height never decreases; a run ends early only at a relay that finds the tip below the last checkpoint, never once the tip has reached it |
| BlockChain.AncestorsStored | Modules/core/BRPeerManager.c:1265-1389 | every ancestor of a main-chain or fork block down to the starting checkpoint is stored at its height |
| BlockChain.StoredCheckpoint | Modules/core/BRPeerManager.c:1156-1168 | a stored block at a checkpoint height is that checkpoint |
| BlockChain.EveryChainPassesLastCheckpoint | Modules/core/BRPeerManager.c:1321-1349 | every stored chain that has reached the last checkpoint passes through it |
| BlockChain.ExtendKeepsInv | Modules/core/BRPeerManager.c:1270-1279 | extending the tip keeps the invariant |
| BlockChain.SecondCopyHeight | Modules/core/BRPeerManager.c:1296-1319 | a second copy of a stored block lies within the main chain's heights |
| BlockChain.ReplaceKeepsInv | Modules/core/BRPeerManager.c:1296-1319 | replacing a stored block by a second copy keeps the invariant |
| BlockChain.ForkKeepsInv | Modules/core/BRPeerManager.c:1335-1389 | storing a fork block above the last checkpoint keeps the invariant, whichever branch is longer |
| BlockChain.BareCheckpointParent | Modules/core/BRPeerManager.c:1335-1349 | until the tip reaches the last checkpoint, a block above it can only follow the bare checkpoint, which is why the walk then fails |
| BlockChain.WalkLeavesStoredBlocks | Modules/core/BRPeerManager.c:1335-1349 | the walk does run off the stored blocks: with checkpoints at 400000 and 500000, one relayed block on top of the second from a peer that claims no blocks |
| HashSet.SizesGrow | Modules/core/BRSet.c:16-23 | each table size exceeds the one before by enough that a rebuilt table is below its load limit |
| HashSet.HashSet.constructor | Modules/core/BRSet.c:35-69 | an empty set of the first table size that holds the capacity |
| HashSet.FreeBucket | Modules/core/BRSet.c:72-97 | a table at or below two thirds load has an empty bucket |
| HashSet.HashSet.Probe | Modules/core/BRSet.c:90-97 | linear probing terminates, at the item's equal or at the first empty bucket of its cluster |
| HashSet.SlotFreeMeansAbsent | Modules/core/BRSet.c:179-194 | a probe that ends in an empty bucket means no equal item is stored |
| HashSet.GetMeaning | Modules/core/BRSet.c:179-194 | a probe that ends in an item gives the one stored item equal to the key |
| HashSet.HashSet.Get | Modules/core/BRSet.c:179-194 | the stored item equal to the key, or none exactly when there is none |
| HashSet.HashSet.Contains | Modules/core/BRSet.c:156-159 | whether an equal item is stored |
| HashSet.HashSet.Count | Modules/core/BRSet.c:148-153 | the number of items stored |
| HashSet.ItemsCounted | Modules/core/BRSet.c:148-153 | occupied buckets and items are equally many |
| HashSet.StoreAt | Modules/core/BRSet.c:85-103 | storing at a probed bucket keeps every item reachable and classes unique |
| HashSet.HashSet.Add | Modules/core/BRSet.c:85-103 | the item replaces its equal, which is returned, and every other item stays; the table grows past its limit |
| HashSet.HashSet.Grow | Modules/core/BRSet.c:72-82 | the same items in the next table size |
| HashSet.HashSet.Remove | Modules/core/BRSet.c:106-136 | the equal item is returned and gone, every other item stays, the table does not grow, and items in front of the removed bucket stay in front |
| HashSet.HashSet.CloseGap | Modules/core/BRSet.c:126-132 | re-inserting the rest of the cluster terminates and leaves every item reachable |
| HashSet.CleaningStart | Modules/core/BRSet.c:122-126 | after emptying a bucket the only items possibly unreachable are those of the rest of its cluster |
| HashSet.CleaningStep | Modules/core/BRSet.c:126-132 | re-inserting one item of the cluster settles it and moves the boundary on |
| HashSet.CleaningDone | Modules/core/BRSet.c:126-132 | at the end of the cluster every item is reachable again |
| HashSet.MoveKeepsItems | Modules/core/BRSet.c:126-132 | moving an item to its probed bucket keeps the items |
| HashSet.MoveKeepsFront | Modules/core/BRSet.c:285-301 | re-insertion never brings an item from behind the removed bucket in front of it, so a scan misses nothing |
| HashSet.HashSet.Clear | Modules/core/BRSet.c:139-145 | no items, same table |
| HashSet.HashSet.Union | Modules/core/BRSet.c:255-267 | the items become the other set's and those of this set without an equal there |
| HashSet.HashSet.Minus | Modules/core/BRSet.c:270-282 | the items that have no equal in the other set |
| HashSet.HashSet.Intersect | Modules/core/BRSet.c:285-301 | the scan terminates with exactly the items that have an equal in the other set, although removal relocates items mid-scan |
| HashSet.HashSet.Intersects | Modules/core/BRSet.c:162-176 | whether some item has an equal in the other set |
| Ledger.Wallet.UpdateBalance | Modules/core/BRWallet.c:126-225 | every transaction gets the status its predecessors determine; the unspent list holds exactly the wallet's outputs of accepted transactions less the inputs of non-invalid ones up to the last accepted, without duplicates; balance is their sum; the balance history is that of every prefix, received is the sum of its rises and sent that of its falls, and balance is received minus sent |
| Ledger.Wallet.WalkOne | Modules/core/BRWallet.c:143-220 | one step of the walk keeps all running collections and both totals equal to their meaning |
| Ledger.Wallet.Reject | Modules/core/BRWallet.c:153-157 | an invalid transaction changes nothing but the invalid set and the history |
| Ledger.Wallet.Hold | Modules/core/BRWallet.c:186-190 | a pending transaction, its inputs spent, changes nothing else but the pending set and the history |
| Ledger.Wallet.SpendsTaken | Modules/core/BRWallet.c:146-151 | an input already spent or of an invalid transaction |
| Ledger.Wallet.AddInputs | Modules/core/BRWallet.c:161-163 | all inputs join the spent set |
| Ledger.Wallet.HeldBack | Modules/core/BRWallet.c:166-184 | too large, locked, or spending a pending transaction's output |
| Ledger.Wallet.AddOutputs | Modules/core/BRWallet.c:197-206 | the wallet's outputs join the unspent list and the balance; every paid address becomes used |
| Ledger.Wallet.Sweep | Modules/core/BRWallet.c:209-215 | exactly the spent entries leave the unspent list and the balance |
| Ledger.Wallet.Accept | Modules/core/BRWallet.c:193-220 | outputs added and the whole list swept, received growing by exactly the rise of the balance and sent by its fall |
| Ledger.GainsLessLosses | Modules/core/BRWallet.c:217-220 | over any history all rises are all falls and the last balance together |
| Ledger.UnspentMeaning | Modules/core/BRWallet.c:126-225 | an output is unspent exactly when an accepted transaction pays it to the wallet and no non-invalid transaction up to the last accepted one spends it |
| Ledger.UnspentButSpent | Modules/core/BRWallet.c:160-190 | an entry of the unspent list is in the spent set if and only if a pending transaction after the last accepted one spends it |
| Ledger.NextIsInvalid | Modules/core/BRWallet.c:145-190 | a new unconfirmed transaction that spends entries of the unspent list is invalid if and only if such a pending transaction spends one of them |
| Ledger.ReservedAndUnspent | Modules/core/BRWallet.c:160-190 | such an entry exists: a confirmed payment spent by a transaction whose lock time has not come |
| Ledger.DoubleSpendIsConfirmed | Modules/core/BRWallet.c:144-163 | two non-invalid transactions share an input only if the later one is confirmed |
| Ledger.OrderIrrelevant | Modules/core/BRWallet.c:126-225 | for confirmed transactions the unspent outputs and the balance do not depend on the order of the list |
| Ledger.SumByElems | Modules/core/BRWallet.c:126-225 | lists with the same entries have the same sum |
| CoinSelection.FeeMonotone | Modules/core/BRWallet.c:42-49 | a larger transaction never costs less, at any rate |
| CoinSelection.MinOutputAmount | Modules/core/BRWallet.c:1786-1794 | at least the absolute minimum and at least in proportion to the fee rate |
| CoinSelection.Select | Modules/core/BRWallet.c:1254-1302 | selection ends at the first prefix of the spendable coins that is enough or too large, or with all of them, with their sum and the rounded fee |
| CoinSelection.SelectedIs | Modules/core/BRWallet.c:1256-1302 | selection ends in exactly one way: the loop's outcome is characterised by the first prefix of the coins that is enough or too large |
| CoinSelection.RoundedFee | Modules/core/BRWallet.c:1296-1299 | at most 99 above the fee with a change output, and what then stays in the wallet is a multiple of 100 |
| CoinSelection.CoinsHoldAll | Modules/core/BRWallet.c:1256-1262 | skipping worthless entries loses no money, and what is selected was found and is worth something |
| CoinSelection.FinishBalanced | Modules/core/BRWallet.c:1306-1317 | a built transaction spends distinct coins of the wallet, pays the requested outputs, adds change only above the minimum, and its fee is at least that of its final size and at most the fee before change plus 34 bytes plus 99 plus the minimum |
| CoinSelection.CreateAttempt | Modules/core/BRWallet.c:1235-1319 | what one call comes to: built and balanced, short of money, or another call for smaller outputs, told apart exactly |
| CoinSelection.Reduce | Modules/core/BRWallet.c:1267-1287 | the smaller outputs asked for when the coins are too many, or none for lack of funds |
| CoinSelection.ShortfallIsPositive | Modules/core/BRWallet.c:1276-1283 | the unsigned difference compared with the last output never wraps |
| CoinSelection.CreateTxForOutputs | Modules/core/BRWallet.c:1235-1319 | whenever the calls end, what they come to; a built transaction is balanced and pays the requested outputs, except that some at the end may be missing and the last one may pay another amount |
| CoinSelection.MaxOutputAmount | Modules/core/BRWallet.c:1797-1824 | the sum of the found outputs less the fee of a transaction with all of them, or zero |
| CoinSelection.AllCoinsSuffice | Modules/core/BRWallet.c:1797-1824 | all spendable coins cover the maximum and the rounded fee of a transaction with them |
| CoinSelection.SpendAll | Modules/core/BRWallet.c:1235-1319 | paying a positive maximum to one pay-to-pubkey-hash output builds a balanced transaction at the first call, in every wallet whose balance is the sum of its unspent outputs and whose all-coins transaction fits |
| CoinSelection.SpendAllAfterUpdate | Modules/core/BRWallet.c:1235-1319 | the same right after the ledger has been recomputed from any registered transactions, spending distinct outputs that are unspent in the ledger's sense |
| Retries.ReducedTo | Modules/core/BRWallet.c:1276-1284 | a call that reduces the last output asks for exactly what the coins that fit leave after their fee |
| Retries.FeeOfReduced | Modules/core/BRWallet.c:1283-1299 | the rounded fee of those coins for the reduced outputs |
| Retries.RetrySettles | Modules/core/BRWallet.c:1267-1302 | if what the wallet keeps beside the coins that fit is a multiple of 100, the call made in turn builds its transaction |
| Retries.AgainAndAgain | Modules/core/BRWallet.c:1267-1302 | if it is not, the call made in turn reduces the last output again, to an amount less than 100 away |
| Retries.NeverEnds | Modules/core/BRWallet.c:1267-1302 | such calls go on without end |
| Retries.RetriesEnd | Modules/core/BRWallet.c:1267-1302 | where the coins that fit leave the last output more than a minimum, fewer coins pay less and the wallet's funds suffice, a call that reduces the last output ends if and only if what the wallet keeps is a multiple of 100 |
| Retries.SendingAllNeverReturns | Modules/core/BRWallet.c:1267-1302 | a wallet of 700 outputs of 100000001 each: sending its maximum never ends |
| GapLimit.FindTail | Modules/core/BRWallet.c:312-313 | the start of the trailing unused addresses |
| GapLimit.WaitingStep | Modules/core/BRWallet.c:315-326 | each used address met is one fewer to wait for, which bounds generation |
| GapLimit.Extend | Modules/core/BRWallet.c:310-326 | generation terminates, only extends the chain, stops with the gap limit of unused addresses after the last used one unless derivation fails, and derives no more than that needs |
| GapLimit.Wallet.UnusedAddrs | Modules/core/BRWallet.c:301-355 | the addresses returned are the gap limit of unused ones from the start of the unused tail; the chain is only extended, and no further than that; the other chain is untouched, and the address set is the union of both chains |
| GapLimit.Wallet.AddNew | Modules/core/BRWallet.c:336-338 | the new addresses join the set |
| GapLimit.Wallet.Rebuild | Modules/core/BRWallet.c:340-351 | the set is rebuilt as the union of the chains |
| UInt256.BitCount | Modules/core/BRInt.h:289-301 | the number of significant bits, modulo 256 |
| UInt256.Add | Modules/core/BRInt.h:303-312 | the sum modulo 2^256 |
| UInt256.Neg | Modules/core/BRInt.h:319-325 | 2^256 - 1 minus the number |
| UInt256.Subtract | Modules/core/BRInt.h:327-329 | the difference, modulo 2^256 when negative |
| UInt256.ShiftLeft | Modules/core/BRInt.h:331-342 | multiplication by a power of two modulo 2^256, for every 8-bit amount |
| UInt256.ShiftRight | Modules/core/BRInt.h:344-355 | the quotient by a power of two, for every 8-bit amount |
| UInt256.SupEqMeans | Modules/core/BRInt.h:65-69 | comparison from the top word down is comparison of the numbers |
| UInt256.DivideStep | Modules/core/BRInt.h:369-376 | one turn of shift-and-subtract keeps dividend, quotient and remainder in step |
| UInt256.Divide | Modules/core/BRInt.h:357-379 | for every divisor whose bit count does not read as zero: the quotient if and only if the dividend is below 2^255, and zero from there on |
| UInt256.MultiplyThis32 | Modules/core/BRInt.h:381-390 | the product with a 32-bit number modulo 2^256 |
| Compact.SetCompact | Modules/core/BRInt.h:392-403 | mantissa shifted by the signed size byte, with 8-bit shift amounts, for every 32-bit pattern |
| Compact.ExpandedMeans | Modules/core/BRInt.h:392-403 | in range, the value is the mantissa times 256^(size - 3), rounded down |
| Compact.GetCompact | Modules/core/BRInt.h:405-425 | the normalised size and mantissa that represent the number rounded down if and only if it is below 2^255; zero from there on, where the assertion lets it through |
| Compact.CompactMonotone | Modules/core/BRInt.h:405-425 | compact forms compare as the numbers do |
| Compact.CompactUnique | Modules/core/BRInt.h:405-425 | a number has one compact form |
| Compact.ExpandedOfCompact | Modules/core/BRInt.h:392-425 | expanding a compact form never exceeds the number and loses less than one part in 2^15 |
| Compact.CompactOfExpanded | Modules/core/BRInt.h:392-425 | a canonical compact number is the compact form of its value |
| Compact.CanonicalSmallSizes | Modules/core/BRInt.h:392-425 | for sizes below three, canonical means a mantissa that is a multiple of 256^(3 - size) |
| Compact.CompactThenExpand | Modules/core/BRInt.h:392-425 | compacting then expanding on limbs: never above, with relative loss below 2^-15 if and only if the number is below 2^255 |
| Compact.ExpandThenCompact | Modules/core/BRInt.h:392-425 | expanding then compacting on limbs returns every canonical compact number |
| DarkGravityWave.ValidIsBounded | Modules/core/BRMerkleBlock.c:318-331 | the range check on targets bounds their value by the easiest target |
| DarkGravityWave.SpanTelescopes | Modules/core/BRMerkleBlock.c:436-445 | for nonzero timestamps within 2^31 the 32-bit timespan is the first timestamp minus the last |
| DarkGravityWave.RetargetBounds | Modules/core/BRMerkleBlock.c:454-470 | the result before compacting lies between a third of the average, rounded down, and three times it |
| DarkGravityWave.StepsFit | Modules/core/BRMerkleBlock.c:405-479 | no 256-bit step leaves the range in which division is exact, and the multiplier is positive and fits 32 bits |
| DarkGravityWave.Gather | Modules/core/BRMerkleBlock.c:420-452 | over the visited blocks, twice the first target plus the others modulo 2^256, the 32-bit timespan and the count plus one, for any targets |
| DarkGravityWave.Scale | Modules/core/BRMerkleBlock.c:455-470 | the average over count plus one, times the clamped timespan, over the target timespan, as 256-bit words hold it |
| DarkGravityWave.NothingWraps | Modules/core/BRMerkleBlock.c:405-479 | with targets that passed the range check the words hold the plain formula |
| DarkGravityWave.LimitCommutes | Modules/core/BRMerkleBlock.c:472-476 | limiting the compact form is compacting the limited target |
| DarkGravityWave.DarkGravityWaveTarget | Modules/core/BRMerkleBlock.c:405-479 | never above the easiest target, which it is when the previous block is unknown or below the start height; otherwise the compact form of the formula on words, for any targets, and of the plain formula when targets are in range, limited to the easiest target |
| Poly1305.KeyLimbsValue | Modules/core/BRCrypto.c:876-880 | the five key limbs hold the clamped r of section 2.5 of RFC 7539 |
| Poly1305.BlockLimbsValue | Modules/core/BRCrypto.c:883-894 | the five block limbs hold the block with its one appended |
| Poly1305.ColumnsMeanProduct | Modules/core/BRCrypto.c:896-901 | the five columns hold the product modulo 2^130 - 5 |
| Poly1305.ColumnsFit | Modules/core/BRCrypto.c:896-901 | no column exceeds 64 bits |
| Poly1305.CarryNeverWraps | Modules/core/BRCrypto.c:903-906 | the carry chain on 32- and 64-bit words never wraps and leaves limbs ready for the next block |
| Poly1305.CarryKeepsValue | Modules/core/BRCrypto.c:903-906 | the carry chain changes the value by a multiple of 2^130 - 5 |
| Poly1305.MultiplyStep | Modules/core/BRCrypto.c:896-906 | one multiplication with carries is multiplication modulo 2^130 - 5 |
| Poly1305.FullCarryValue | Modules/core/BRCrypto.c:910-912 | the final carry keeps the value modulo 2^130 - 5 in full limbs |
| Poly1305.ReducedValue | Modules/core/BRCrypto.c:914-920 | the masked choice yields the value modulo 2^130 - 5 |
| Poly1305.PackedValue | Modules/core/BRCrypto.c:922-924 | the four words hold the low 128 bits |
| Poly1305.AddWordsValue | Modules/core/BRCrypto.c:926-930 | adding s with carries is addition modulo 2^128 |
| Poly1305.BlockStepRefines | Modules/core/BRCrypto.c:882-907 | a block step refines one step of the polynomial evaluation |
| Poly1305.Compress | Modules/core/BRCrypto.c:871-936 | the in-place limb loop evaluates the polynomial, and on the last call leaves the tag |
| Poly1305.Finish | Modules/core/BRCrypto.c:909-931 | the tag is the accumulated value plus s modulo 2^128 |
| Poly1305.Poly1305 | Modules/core/BRCrypto.c:940-951 | for every key and message the tag of section 2.5 of RFC 7539 |
| Poly1305.AccumulateInParts | Modules/core/BRCrypto.c:871-907 | splitting a message at a multiple of 16 bytes composes |
| Base58.DigitOfChar | Modules/core/BRBase58.c:74-104 | the ranges of the switch read every character of the alphabet as its index |
| Base58.CharOfDigit | Modules/core/BRBase58.c:74-104 | and every character they accept is the alphabet's |
| Base58.EncodeFits | Modules/core/BRBase58.c:29 | 138/100 of the bytes plus one base58 digit hold every byte string |
| Base58.DecodeFits | Modules/core/BRBase58.c:67 | 733/1000 of the digits plus one byte hold every base58 string |
| Base58.MultiplyAdd | Modules/core/BRBase58.c:36-40 | the carry loop multiplies the buffer's number and adds a digit, within 32 bits |
| Base58.CarryEnd | Modules/core/BRBase58.c:36-40 | nothing is carried out of a buffer that can hold the result |
| Base58.FillEncode | Modules/core/BRBase58.c:29-43 | the buffer holds the bytes' number in base 58 |
| Base58.FillDecode | Modules/core/BRBase58.c:67-115 | the buffer holds the number of the digits up to the first invalid character |
| Base58.Encode | Modules/core/BRBase58.c:22-57 | leading ones and the digits without leading zeros, or nothing when they do not fit |
| Base58.Decode | Modules/core/BRBase58.c:60-127 | leading zeros and the bytes without leading zeros, or nothing when they do not fit |
| Base58.ConvertBack | Modules/core/BRBase58.c:22-127 | converting between two bases with leading zeros kept and back is the identity |
| Base58.DecodeEncoded | Modules/core/BRBase58.c:22-127 | decoding undoes encoding on every byte string |
| Base58.EncodeDecoded | Modules/core/BRBase58.c:22-127 | encoding undoes decoding on a string if and only if it is all base58 digits |
| Base58.EncodeDecodedPrefix | Modules/core/BRBase58.c:70-106 | decoding any string and encoding again gives its digits up to the first character that is not one |
| Base58.GarbageIgnored | Modules/core/BRBase58.c:100-106 | everything from the first character that is not a digit on is ignored |
| Base58.DecodedLength | Modules/core/BRBase58.c:150-156 | a decoded string never exceeds the string's length, so the buffer of that size suffices |
| Base58.CheckEncode | Modules/core/BRBase58.c:130-147 | the encoding of the payload and the first four bytes of its hash |
| Base58.CheckDecode | Modules/core/BRBase58.c:150-170 | the payload if the checksum matches and it fits, else nothing |
| Base58.CheckRoundTrip | Modules/core/BRBase58.c:130-170 | the checksummed pair round-trips for every hash function |
| Base58.CheckDecodeSound | Modules/core/BRBase58.c:150-170 | a string yields a payload only if its digits up to the first invalid character are that payload's encoding |
| Base58.CheckDecodeGarbage | Modules/core/BRBase58.c:150-170 | the encoding of a payload followed by anything that does not start with a digit still decodes to the payload |
| Aes.SboxInverts | Modules/core/BRBIP38Key.c:33-69 | the second table inverts the first |
| Aes.SboxRestores | Modules/core/BRBIP38Key.c:33-69 | and the first inverts the second |
| Aes.SboxIsAffineOfInverse | Modules/core/BRBIP38Key.c:33-50 | the table is the affine map of the inverse in the field of bytes (section 5.1.1 of FIPS 197) |
| Aes.MixIsMatrix | Modules/core/BRBIP38Key.c:91-94 | the mixing step with one doubling per byte is multiplication by the matrix of section 5.1.3 of FIPS 197 |
| Aes.UnmixMix | Modules/core/BRBIP38Key.c:91-134 | unmixing a column undoes mixing |
| Aes.MixUnmix | Modules/core/BRBIP38Key.c:91-134 | and mixing undoes unmixing, mixing four times being the identity |
| Aes.UnroundRound | Modules/core/BRBIP38Key.c:83-140 | undoing a round undoes it, mixed or not |
| Aes.UnexpandExpand | Modules/core/BRBIP38Key.c:96-149 | taking an expansion of the key schedule back restores it and its round constant |
| Aes.UndoneMeets | Modules/core/BRBIP38Key.c:82-150 | turn i of decryption meets the block as round 14 - i of encryption left it |
| Aes.DecryptEncrypted | Modules/core/BRBIP38Key.c:73-156 | decryption undoes encryption for every key and block |
| Aes.EncryptDecrypted | Modules/core/BRBIP38Key.c:73-156 | encryption undoes decryption too, so both are one-to-one for every key |
| Aes.RoundKeyIsWords | Modules/core/BRBIP38Key.c:96-101 | round i adds words 4i to 4i + 3 of the key expansion recurrence of section 5.2 of FIPS 197 |
| Aes.Encrypt | Modules/core/BRBIP38Key.c:73-109 | the in-place rounds, expanding one pair of round keys at a time, compute fourteen rounds with the round keys of the whole schedule |
| Aes.Decrypt | Modules/core/BRBIP38Key.c:111-156 | the in-place turns with the schedule taken back as they go compute the inverse cipher's block |
| Aes.ExpandKey | Modules/core/BRBIP38Key.c:96-101 | the in-place expansion is one step of the schedule |
| Aes.UnexpandKey | Modules/core/BRBIP38Key.c:142-149 | the in-place step back is the inverse step |
| Aes.ShiftRowsInPlace | Modules/core/BRBIP38Key.c:87-89 | row r turns left by r columns |
| Aes.UnshiftRowsInPlace | Modules/core/BRBIP38Key.c:136-138 | row r turns right by r columns |
| Bip38.Bip38Key | Modules/core/BRBIP38Key.c:325-372 | the checksummed string of prefix, flag, address hash and two encrypted halves |
| Bip38.SetBip38Key | Modules/core/BRBIP38Key.c:215-251 | opens a payload of 39 bytes whose recovered key has an address hashing to the stored salt, and nothing else |
| Bip38.SecretOfSealed | Modules/core/BRBIP38Key.c:227-250 | the encrypted halves of a payload give the secret back |
| Bip38.OpenProtected | Modules/core/BRBIP38Key.c:215-372 | a protected key opens with its passphrase to the same secret and compression choice, for all scrypt, hash and address functions |
| Bip38.ProtectOpened | Modules/core/BRBIP38Key.c:215-372 | what opens to a key is that key's payload under the same passphrase if and only if its flag byte holds nothing but what protecting writes there |
| Bip38.ProtectedFits | Modules/core/BRBIP38Key.c:337 | the advertised length holds every protected key and its terminator |
| PublishList.Manager.Add | Modules/core/BRPeerManager.c:210-226 | the recursive add terminates, leaves the arrays aligned and free of duplicates and every entry's unconfirmed inputs listed, and adds only the transaction and its ancestors, these as the wallet's own unconfirmed transactions and without callbacks |
| PublishList.Manager.AddAny | Modules/core/BRPeerManager.c:210-226 | on any list: nothing is added for a confirmed or listed transaction; else the transaction with its callback and after it ancestors without, each the wallet's own unconfirmed transaction, so that every added one's unconfirmed inputs are listed; complete stays complete |
| PublishList.AncestorsListed | Modules/core/BRPeerManager.c:210-226 | in a complete list in which every hash stands for its transaction, all unconfirmed ancestors of a listed transaction are listed, over any number of generations |
| PublishList.AddListsExactly | Modules/core/BRPeerManager.c:210-226 | adding to a complete list lists what was listed, the transaction and exactly its unconfirmed ancestors of every generation |
| PublishList.AddListsAncestors | Modules/core/BRPeerManager.c:210-226 | on any list, complete or not, the added transaction's unconfirmed ancestors are listed up to and including the first one listed before |
| PublishList.Manager.Confirmed | Modules/core/BRPeerManager.c:439-458 | exactly the entries of the confirmed transactions leave, no callback is called, and the list stays complete for the wallet in which they are confirmed |
| PublishList.ConfirmKeepsClosed | Modules/core/BRPeerManager.c:443-450 | dropping a confirmed entry leaves every other entry's unconfirmed ancestors listed |
| PublishList.Manager.Disconnected | Modules/core/BRPeerManager.c:861-885 | exactly the entries with a callback leave, and their callbacks are called, last entry first |
| PublishList.RemainingComplete | Modules/core/BRPeerManager.c:861-885 | entries of a complete list that remain when others leave are complete if and only if none of them spends an unconfirmed wallet transaction that left |
| PublishList.Manager.Take | Modules/core/BRPeerManager.c:942-951 | takes the callback of the entry with the hash and changes nothing else |
| PublishList.Manager.Seen | Modules/core/BRPeerManager.c:1030-1071 | the callback of an announced transaction is called and taken from its entry; nothing else changes |
| PublishList.Manager.Requested | Modules/core/BRPeerManager.c:1477-1515 | the callback of a requested transaction is called; a valid one keeps its entry without it, an invalid one loses exactly its entry |
| PublishList.Manager.Step | Modules/core/BRPeerManager.c:210-1515 | every event has exactly its effect on the list and on the callbacks called |
| PublishList.Manager.Run | Modules/core/BRPeerManager.c:210-1515 | over every run the arrays stay aligned and free of duplicates, every event has exactly its effect, and callbacks called, waiting and lost are together those handed over |
| PublishList.EffectComplete | Modules/core/BRPeerManager.c:210-1515 | for the wallet an event sees, a complete list stays complete if and only if it is no disconnection at which an entry without callback spends an unconfirmed one with, and no request for an invalid unconfirmed transaction that another entry spends |
| PublishList.RunComplete | Modules/core/BRPeerManager.c:210-1515 | over every run without such an event a complete list stays complete, as long as the wallet does not between events come to hold an unlisted transaction spent by an entry as unconfirmed |
| PublishList.EffectGenuine | Modules/core/BRPeerManager.c:210-1515 | when a hash determines its transaction, every event keeps the listed transactions what their hashes say |
| PublishList.RunListsAncestors | Modules/core/BRPeerManager.c:210-1515 | over every such run, every listed transaction has all its unconfirmed ancestors of every generation listed |
| PublishList.RunFromEmpty | Modules/core/BRPeerManager.c:210-1515 | from an empty list, callbacks handed over once each are called at most once each, and each is called, waiting or lost |
| PublishList.EffectConserves | Modules/core/BRPeerManager.c:210-1515 | no event makes a callback from nothing, and one is lost exactly when it comes with a confirmed or listed transaction or its transaction confirms while it waits |
| PublishList.RunConserves | Modules/core/BRPeerManager.c:210-1515 | the same conservation over every run |
| PublishList.LostOnConfirmation | Modules/core/BRPeerManager.c:441-450 | a transaction that confirms before any peer relays it: its callback is never called, whatever follows |
| PublishList.LostOnSecondPublish | Modules/core/BRPeerManager.c:213-215 | a transaction published a second time: the second callback is never called, whatever follows |
| PublishList.GapOnDisconnection | Modules/core/BRPeerManager.c:861-885 | a parent and its child are published, a peer announces the child and the connection is lost: the child stays listed without its unconfirmed parent |
| PublishList.GapOnInvalid | Modules/core/BRPeerManager.c:1477-1515 | a parent and its child are published and a peer asks for the parent, which is invalid: the child stays listed without its unconfirmed parent |
| FilteredBlock.Peer.Gather | Modules/core/BRPeer.c:1125-1128 | the unknown matched transactions, last first |
| FilteredBlock.Peer.AcceptMerkleblock | Modules/core/BRPeer.c:1096-1142 | a valid block is relayed at once when it lacks nothing, else becomes the one collected; anything else fails the peer |
| FilteredBlock.Peer.Strike | Modules/core/BRPeer.c:562-566 | one occurrence of the hash is struck off |
| FilteredBlock.Peer.AcceptTx | Modules/core/BRPeer.c:540-574 | a transaction completes the collected block exactly when nothing is awaited any more |
| FilteredBlock.Peer.Accept | Modules/core/BRPeer.c:1209-1226 | a message is accepted unless it is malformed, invalid or untimely, or is no tx and comes while some block is open, told from the messages alone; a refused one relays nothing, and any other message while collecting drops the block |
| FilteredBlock.Peer.Run | Modules/core/BRPeer.c:1209-1226 | over every message sequence the run ends exactly at the first refused message, and the relayed blocks are, in order, exactly those of the merkleblocks followed, by tx messages only, by all their missing transactions |
| FilteredBlock.DeliveredMeans | Modules/core/BRPeer.c:561-573 | while only tx messages follow a block, it is delivered exactly when nothing it lacked is outstanding |
| FilteredBlock.CollectingIsOpen | Modules/core/BRPeer.c:1213-1218 | a block is being collected exactly when some merkleblock has been followed by tx messages only and still lacks a transaction |
| FilteredBlock.SettledStays | Modules/core/BRPeer.c:1213-1218 | a block that is no longer open is neither delivered nor reopened by later messages |
| FilteredBlock.TxArrives | Modules/core/BRPeer.c:561-573 | a transaction either completes the one open block or leaves it open with one hash fewer |
| FilteredBlock.StartCollecting | Modules/core/BRPeer.c:1125-1135 | a block with missing transactions becomes the one open block |
| FilteredBlock.RelayAtOnce | Modules/core/BRPeer.c:1133-1138 | a block that lacks nothing is delivered by its own message |
| TxWire.ReadVarIntWritten | Modules/core/BRAddress.c:23-88 | every 64-bit varint is read back with its length |
| TxWire.VarIntSet | Modules/core/BRAddress.c:54-94 | the varint is written, or only counted, or refused when it does not fit |
| TxWire.TxInputData | Modules/core/BRTransaction.c:97-116 | an input's bytes are written where there is room, nothing before them changes, and their number is returned |
| TxWire.TransactionOutputData | Modules/core/BRTransaction.c:153-167 | the outputs' bytes |
| TxWire.TransactionData | Modules/core/BRTransaction.c:234-296 | the whole transaction under every hash type: nothing for the fork-id and anyone-can-pay types, no outputs for none and single, everything else otherwise; never more than the buffer holds |
| TxWire.SignedIsSerialized | Modules/core/BRTransaction.c:580-585 | the hash taken when signing is over the bytes that serializing writes |
| TxWire.Serialize | Modules/core/BRTransaction.c:431-434 | exactly the transaction's bytes in every buffer that holds them; the number reported is the length needed if and only if there is no buffer or it holds them, and for one too small the length without the fields that report nothing, or zero when that too exceeds it |
| TxWire.ReportedForTooSmall | Modules/core/BRTransaction.c:234-296 | a number other than zero can be reported for a buffer that is too small: ten for a transaction of 51 bytes in a buffer of ten |
| TxWire.TransactionSize | Modules/core/BRTransaction.c:486-506 | the serialized length, with 148 in place of what each unsigned input is written with |
| TxWire.Parse | Modules/core/BRTransaction.c:345-427 | the cursor loops read what the format gives, for every byte string, malformed ones included |
| TxWire.ReadInputWritten | Modules/core/BRTransaction.c:361-381 | an input is read back if and only if its scriptSig is no template, or it is unsigned with a template script and a nonzero amount |
| TxWire.ReadOutputWritten | Modules/core/BRTransaction.c:387-394 | an output is read back |
| TxWire.ParseWritten | Modules/core/BRTransaction.c:345-433 | parsing a serialized transaction of recognisable inputs, with anything after it, restores version, inputs as on the wire, outputs and lock time; a fully signed one is hashed over exactly the serialized bytes |
| TxWire.ParseExactly | Modules/core/BRTransaction.c:345-433 | a serialized transaction is restored if and only if every input is recognisable: its scriptSig no template, or unsigned with a template script and a nonzero amount |
| TxWire.SerializeAndParse | Modules/core/BRTransaction.c:345-433 | serializing into a buffer of the reported length and parsing gives the transaction back if and only if every input is recognisable |

## Left out

- UI, platform code, network sockets, DNS, threads, locks, timers and memory management: plumbing around the modelled steps.
- secp256k1, X16R, X16Rv2, KawPow, SHA, RIPEMD, scrypt and PBKDF2: foreign or pure mixing code, treated as parameters.
- Floating-point code (bloom filter sizing, false-positive rate, sync progress, currency conversion): approximate by intent.
- Asset scripts, opcode tables, word lists, chain constants and Bech32: straight-line code or data, which would only add easy members.
- The counter and height exceptions of the difficulty verification, pruning below the Dark Gravity Wave start and loading saved blocks: special-case policy; the chain starts from checkpoints alone, at or above that height, with no two adjacent checkpoints.
- Height-sortedness of the transaction list: heights change in place, so it is not an invariant; the ledger is stated for any order.
- The EC-multiplied path of BIP 38: `Bip38.Open` reports such a payload as belonging to another scheme.
- BlockChain.Manager.RelayOne: block objects are values, so two copies of one block with different contents are told apart only by hash; heights do not wrap at 32 bits.
- BlockChain.Manager.VerifyBlock: the difficulty verdict itself is an oracle; the retarget it compares with is modelled in `DarkGravityWave`.
- CoinSelection.CreateTxForOutputs: the random order of outputs after change is added is not modelled; sums are assumed to fit 64 bits; calls in turn for no outputs at all go on although the source asserts that there is one.
- Ledger.Wallet.UpdateBalance: a pending transaction spends outputs but does not sweep the list, so unspent outputs are stated relative to the last accepted transaction; sums are assumed to fit 64 bits.
- GapLimit.Wallet.UnusedAddrs: key indices do not wrap at 32 bits; whether growing the chain moved it in memory is a parameter.
- HashSet.HashSet.Add: within the largest table size; the other set of a binary operation is a different object.
- TxWire.Serialize: lengths and offsets do not wrap at 64 bits; what a buffer that is too small holds afterwards is not stated.
- TxWire.TransactionData: the preimages for signing a single input (an index other than the whole transaction) are not modelled, nor is TxWire.TransactionOutputData for a single output.
- TxWire.TransactionOutputData: only for all outputs at once.
- TxWire.Parse: asset data derived from outputs is not modelled.
- FilteredBlock.Peer.Accept: parsing is given with the message, and the block and transaction callbacks are assumed to be set.
- Bip38.SetBip38Key: a payload with another prefix is reported as `Other`, whatever it holds.
