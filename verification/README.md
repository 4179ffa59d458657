# Name database, scripts and proofs of nmcd: a Dafny model

nmcd is a Namecoin node. This project models the parts of it that decide who owns a name and
what the node stores about it, and proves what they keep.

- **The name database and the chain that drives it.** Connecting a block expires names with a
  backup of their history, spends and creates outputs, carries out NAME_NEW, NAME_FIRSTUPDATE
  and NAME_UPDATE, and drops old backups. Disconnecting restores expired names, undoes the
  transactions last first and restores spent outputs. `NameDatabase` and `BlockChain` do this
  step by step on thirteen buckets and a cache; `NameStore`, `UtxoSet` and `Chain` say what the
  outcome is; `Reorg`, `Runs`, `Ownership`, `Money` and `Limits` prove what that means over
  whole runs of connects and disconnects; `Outcome` says what one block leaves in each bucket,
  place by place, and `Retention` how long backups are kept; `NameHistory` and `SharedTransactions` say what
  becomes of a history when one transaction writes two names, and `ReRegistration` what is left
  of a first update that took over an expiring name and was undone.
- **Validation**, of blocks (`Validation`, `BlockRules`) and in the mempool (`Mempool`), and the
  rules said without the validators (`DeclaredRules`, `Admission`, `SubsidySchedule`).
- **Name scripts**: the wallet's builder, the chain's parser and its second walk (`PushCodec`,
  `NameScript`), their bytes and what running them does (`PushBytes`, `ScriptMachine`), the
  wallet's transactions (`WalletTx`, `WalletAmounts`) and registration in two phases from wallet
  to block rules and to the stored record (`Registration`).
- **Merged mining**: Merkle branches and the commitment in the parent coinbase (`Merkle`,
  `Commitment`, `CommitmentBytes`), after the sections "Merkle Branch" and "Merged mining coinbase" of the Merged
  mining specification.
- **Storage and bookkeeping**: key order and scans (`Cursor`, `Scans`), record and output
  encodings (`Codec`, `Layout`), the recency caches (`Lru`, `Recency`, `Coherence`), the batch writer
  (`BatchSteps`, `BatchWriter`), the rate limiter (`RateLimiter`, `RateBounds`).

Buckets are finite maps and sets. A cursor visits keys in byte order, and the scans are proved
on that order. Code that works step by step is a method with loops, proved against a function
of the old state; the theorems are about those functions. Hash160, double SHA-256 and the
decoding of addresses are parameters: no theorem depends on what they compute. The stack machine
takes a name opcode to leave one item, as the number of drop opcodes behind it requires; the
theorem about the 25 bytes of the owner's script does not depend on that. Block
timestamps are Unix seconds, because that is what a record stores.

## Hypotheses

The theorems about blocks and runs assume what btcd checks before the name database is asked.
The assumptions are stated in `BlockFacts.ValidBlock`, `Runs.Allowed` and `Money.MoneyFacts`.
`Witness` and `SharedWitness` show that they can be met, and that the failures below occur.

- A connected block passes validation at its height, which is at least 1 because a recorded
  height of 0 counts as unknown (chain/blockchain.go:1378), and the tracking of outputs has
  started by then.
- Transaction ids are distinct in a block and new to the chain, including the outputs and
  history records that exist only as backups. A transaction has at most 2^32 outputs.
- Connecting the block succeeded. A valid block fails half-way if and only if an output is too
  big for its encoding or a NAME_NEW pushes nothing, or more than a key can hold
  (`Reorg.ConnectFailsOnUnstorable`).
- A disconnected block was undoable when it was connected: it registered no name that was still
  stored, the history of every name it updated ended in the live record, and no name that expired
  with it shared a history record with an older backup. Without that, disconnecting does not
  give the database back (`Reorg.DisconnectUndoesProcess` is an equivalence). In the first case
  it does not even keep the state invariant (`ReRegistration.DisconnectKeepsInv`).
- No backup of the height of a disconnected block has been dropped. Pruning drops those 1000
  below a multiple of 100, so a tip that was never more than 1000 above the block is enough
  (`Runs.RecentBlocksKept`). Once they are gone, undoing gives back the live buckets only if
  there was nothing to back up (`Limits.UndoNeedsBackups` is an equivalence).
- For the money theorems: no output is spent twice in a block, no output is negative, and a
  transaction other than the coinbase pays out at most what it spends.

Two facts are not assumed. A block never spends an output it creates; this follows from
validation (`BlockFacts.BlockIsClean`). And a transaction may write two names, which the block
rules allow although the mempool refuses it. History is keyed by the transaction alone
(namedb/namedb.go:799), so the two names then share the record of the second. Histories stay
complete if and only if no transaction does that (`Reorg.ConnectComplete`); the next block can
still be undone if and only if it does not update a name whose record was overwritten
(`SharedTransactions.NextBlockUndone`); otherwise the rollback gives that name the value, the
owner and the output of the other one (`SharedTransactions.RolledBackToAnotherRecord`).

## Where comments and code disagree

The model follows the code.

- The comment on `PutName` (namedb/namedb.go:249-252) says that the encoder derives an expiry
  height of 0 from the record's height. The encoder writes the field as it is.
- The comment on `GetUTXOsForAddress` (namedb/utxo.go:273-277) says that outputs with addresses
  of other lengths would be skipped silently. They are found: the outpoint at the end of the
  key has a fixed size.
- The comment on `MerkleBranch` (chain/auxpow.go:65) gives side bit 0 to a sibling on the
  left. In the code, and in the comment on its field, 0 is a sibling on the right.
- config/doc.go:25 and wallet/wallet.go:1023 name a value limit of 1023 bytes; the code
  enforces 520.
- chain/auxpow.go:305 accepts chain branches of up to 32 levels, but the commitment check that
  follows refuses 32 (chain/auxpow.go:470); such a branch passes only if it ends in the
  coinbase hash itself.

## Model

| member | source | states |
|---|---|---|
| Runs.RunIsReplay | chain/blockchain.go:882-1400 | After any allowed run of connects and tip disconnects the whole database is the one that connecting only the surviving blocks builds, minus backups below the pruning floor; in particular names, expiration, history, history index, name_new, outputs and address index are equal, and the state invariant holds at the new tip. |
| Runs.RunKeepsHistories | namedb/namedb.go:786-814 | If no surviving block writes two names in one transaction, every history, live or backed up, is complete after the run. |
| Runs.RecentBlocksKept | chain/blockchain.go:1134-1142 | A tip that was never more than 1000 above the block to disconnect has dropped no backup of its height. |
| Runs.RunGood | chain/blockchain.go:882-1400 | Induction over the run behind it: every connect and every disconnect keeps "equal to the replay of the surviving blocks, pruned at the floor". |
| Runs.StepConnect | chain/blockchain.go:882-898 | Connecting a valid block on a pruned state is pruning the connected replay, with the floor raised by the periodic cleanup. |
| Runs.StepDisconnect | chain/blockchain.go:1261-1293 | Disconnecting the tip of a pruned state gives the pruned replay without that block, as long as the block was undoable when it was connected and no backup of its height has been dropped. |
| Reorg.DisconnectUndoesProcess | chain/blockchain.go:1261-1400 | Disconnecting a valid block gives back every bucket, live or backup, if and only if it registers no name that was still stored, the history of every name it updates ended in the live record, and no name that expires with it shares a history record with an older backup; otherwise the live buckets differ. Transactions may write several names. |
| Reorg.UndoableWhenComplete | chain/blockchain.go:1261-1400 | With complete histories the last two conditions always hold. |
| Reorg.UndoNames | chain/blockchain.go:1315-1400 | The name half: restoring expired names and undoing the operations last first gives back all nine name buckets of an undoable block, and other live buckets for any other block. |
| Reorg.UndoUtxos | chain/blockchain.go:1296-1311 | The output half: removing what the block created and restoring what it spent gives back all four output buckets, for every valid block. |
| NameUndo.UndoEntriesInverts | chain/blockchain.go:1315-1400 | Undoing the name operations of a block last first inverts applying them when the updated names had their record in history, also when two operations share a transaction and its history record, and when two first updates consume one commitment because salt and name are concatenated without a separator. |
| NameHistory.UndoEntriesFinds | chain/blockchain.go:1389-1400 | In any case undoing gives back the history buckets, and gives each updated name the record that its last history entry holds now. |
| Reorg.UndoneExactly | chain/blockchain.go:1389-1400 | Undoing the operations of a block gives back the live buckets if and only if the history of every updated name ended in its live record. |
| UtxoSet.UndoEffect | namedb/utxo.go:392-414 | Removing the created outputs in any order and restoring the spent ones inverts the closed-form effect of a block. |
| UtxoSet.ApplyStepsIsEffect | chain/blockchain.go:953-1008 | Spending and creating outputs one by one has a closed form: outputs, address index, spent backups and their height index in one expression. |
| NameExpiry.RestoreBackedUp | namedb/namedb.go:656-688 | Restoring the names backed up at a height moves back exactly their records, marks, histories and history lists, and of the other backups only history records that the restored lists share. |
| NameExpiry.ExpireAllIsExpireSet | chain/blockchain.go:903-934 | Expiring names one by one, in any order, has the closed form: the live buckets without them, the backups with them. |
| Reorg.ConnectOnPruned | chain/blockchain.go:1134-1153 | Backups below a floor at or below the block play no part in connecting it. |
| Reorg.DisconnectOnPruned | chain/blockchain.go:1134-1153 | Nor in disconnecting it, while the backed-up histories are complete. |
| Limits.ConnectThenUndo | chain/blockchain.go:1134-1153 | Connecting at most 1001 blocks and disconnecting them all is the identity on the live buckets. |
| Limits.UndoNeedsBackups | chain/blockchain.go:1134-1153 | The limit is real: after pruning at a floor, undoing a block gives back the live buckets, names and outputs, if and only if the block is undoable and either the floor is not above it or it spent no output and no name expired with it. |
| Witness.FirstBlockIsValid | chain/blockchain.go:357-397 | The hypotheses can be met: a coinbase-only first block is valid on the empty database, and connects if and only if the buckets can hold its output and commitment. |
| Witness.ValidButUnstorable | namedb/namedb.go:869-885 | Valid blocks whose update fails half-way: one with an oversized script, and one with a NAME_NEW that pushes nothing. |
| Witness.ValidButNotUndoable | chain/blockchain.go:1261-1271 | A valid block that cannot be undone: it registers a name in the block that expires it. |
| Witness.ValidButSharesBackup | namedb/namedb.go:656-688 | Another one: it touches no name, but a name expires with it whose history shares a record with an older backup. |
| Witness.RollbackLosesInvariant | chain/blockchain.go:1353-1371 | Undoing the first one leaves the new mark of the name in the expiration index, without the name. |
| ReRegistration.DisconnectKeepsInv | chain/blockchain.go:1261-1293 | With complete histories, disconnecting a valid block keeps the state invariant if and only if the block registers no stored name. |
| ReRegistration.MarkLeftBehind | chain/blockchain.go:1353-1371 | Otherwise the name is gone and the mark of the undone registration stays, because deleting the restored record removes only the old mark. |
| ReRegistration.MarkExpiresName | chain/blockchain.go:903-934 | A mark below the height of a block expires its name with that block, even when the record is still valid. |
| Witness.FirstRunIsAllowed | chain/blockchain.go:882-1293 | Connecting and disconnecting that block is an allowed run that also meets the money rules. |
| Reorg.ConnectInv | chain/blockchain.go:882-1131 | A valid block whose outputs fit the encoding keeps the state invariant: expiration index mirrors names, address index mirrors outputs, every name and no other has a history, no history record is live and backed up, backups are at most at the tip, each outpoint has one backup entry. |
| Reorg.ConnectComplete | namedb/namedb.go:786-814 | A valid block keeps the histories complete, that is disjoint, on record and ending with the live record, if and only if none of its transactions writes two names. |
| NameHistory.EndsLiveAfter | namedb/namedb.go:786-814 | After the operations of a block a history ends in the live record if and only if the transaction that wrote the name did not write another one after it. |
| NameHistory.RecordOfLastWriter | namedb/namedb.go:786-814 | The history record of a transaction is that of the last name it wrote. |
| Reorg.ConnectFailsOnUnstorable | chain/blockchain.go:937-1035 | Updating the database for a valid block fails half-way if and only if an output has an address over 255 bytes or a script over 65535 bytes, or a NAME_NEW commitment is empty or over 32768 bytes. |
| Reorg.PruneInv | namedb/namedb.go:694-716 | Dropping old backups keeps the state invariant. |
| NameInvariant.ApplyEntriesLiveInv | chain/blockchain.go:1011-1131 | The name operations of a block keep the invariant of the live name buckets. |
| NameInvariant.ExpireSetInv | chain/blockchain.go:903-934 | Expiring names keeps the invariant, and every name left is valid at the new height. |
| NameUndo.ApplyEntriesShape | chain/blockchain.go:1011-1131 | Applying entries touches only the names, transactions and commitments they mention: registered commitments appear, consumed ones go, all others stay. |
| UtxoSet.EffectInv | namedb/utxo.go:174-240 | A block keeps the invariant of the output buckets. |
| BlockFacts.BlockIsClean | chain/blockchain.go:823-844 | A validated block spends only outputs live before it and creates only unknown ones; in particular it never spends what it creates. |
| BlockFacts.EntriesFit | chain/blockchain.go:663-755 | Validation establishes everything the name operations need, after the names that expire have gone. |
| Ownership.ConnectNeedsOwner | chain/blockchain.go:620-660 | If connecting a block changes or removes the record of an unexpired name, some transaction of the block spends the output recorded as its owner. |
| Ownership.FirstUpdateTakesNoLiveName | chain/blockchain.go:582-595 | A first update in a valid block never names a record that has not expired. |
| Ownership.OwnershipInRuns | chain/blockchain.go:903-1131 | After any allowed run every live name satisfies height <= tip <= expiry and commitment height + 12 <= height, and the next block changes it only by spending its output. |
| Money.ConnectAddsAtMostSubsidy | chain/blockchain.go:357-427 | Each valid connect raises the sum of the unspent outputs by at most the block subsidy. |
| Money.RunSupply | chain/blockchain.go:357-427 | Over any run the sum grows by at most the subsidies of the surviving blocks. |
| Money.SubsidiesAreBounded | config/subsidy.go:37-60 | All subsidies together stay below twice the initial subsidy times the halving interval, whatever the interval. |
| Money.SupplyIsBounded | config/subsidy.go:13-60 | From the empty database no run makes more than 21 million coins with the interval 210,000. |
| Money.SupplyAfterSteps | chain/blockchain.go:937-1008 | The sum after a block is the sum before it, plus created values, minus spent ones. |
| Money.DeltaBlock | chain/blockchain.go:403-427 | What a block adds is what its coinbase pays minus the fees computeBlockFees finds. |
| Limits.FeesFitInSupply | chain/blockchain.go:403-427 | The fees of a valid block are at most the sum of the unspent outputs, and no output turns negative. |
| Limits.SumsFit | chain/blockchain.go:391-397 | On the main network the subsidy and the fees of the next block of any run stay below 22 million coins, so no 64-bit sum overflows. |
| SharedTransactions.NextBlockUndone | chain/blockchain.go:1389-1400 | After a block with shared transactions, undoing the next block gives the database back if and only if it registers no stored name and updates no name whose history record was overwritten. |
| SharedTransactions.RolledBackToAnotherRecord | chain/blockchain.go:1389-1400 | Otherwise the rollback gives the updated name the record of the last name its transaction wrote, with that name's output as the owner. |
| SharedTransactions.HistoriesAfter | namedb/namedb.go:786-814 | Which histories end in their live record after a valid block: all but the overwritten ones. |
| SharedWitness.ValidButNotUndone | chain/blockchain.go:663-755 | Such blocks exist: a valid block registers two names in one transaction, a valid next block only updates the first, and undoing it does not give the database back. |
| BlockChainUpdates.BlockChain.ProcessBlock | chain/blockchain.go:242-343 | Validates, then connects: rejected exactly when the rules fail, connected exactly when the update succeeds, and the new state is the specified one. |
| BlockChainUpdates.BlockChain.UpdateNameDatabase | chain/blockchain.go:882-898 | Succeeds if and only if connecting is specified to, and then every bucket is as specified. |
| BlockChainUpdates.BlockChain.HandleExpiredNames | chain/blockchain.go:903-934 | Backs up and deletes every name the expiration scan finds, in its order. |
| BlockChainUpdates.BlockChain.ExpireName | chain/blockchain.go:909-930 | Backs up the stored record with its history, then deletes name and history. |
| BlockChainUpdates.BlockChain.ProcessBlockTransactions | chain/blockchain.go:937-950 | All transactions in order; fails if and only if some step is specified to fail. |
| BlockChainUpdates.BlockChain.ProcessTransaction | chain/blockchain.go:938-948 | Inputs, unless it is the coinbase, then outputs. |
| BlockChainUpdates.BlockChain.ProcessTransactionInputs | chain/blockchain.go:953-969 | Backs up and removes each spent output that is there. |
| BlockChainUpdates.BlockChain.ProcessTransactionOutputs | chain/blockchain.go:972-986 | Adds each output and carries out its name operation. |
| BlockChainUpdates.BlockChain.ProcessOutput | chain/blockchain.go:976-984 | One output: refused if and only if it is oversized, or its NAME_NEW commitment is stored or can be no key. |
| BlockChainUpdates.BlockChain.ProcessNameOperation | chain/blockchain.go:1011-1131 | Writes record, history and commitment buckets as specified for each operation; refused if and only if it is a NAME_NEW whose commitment is stored or can be no key. |
| BlockChainUpdates.BlockChain.StoreName | chain/blockchain.go:1052-1131 | Stores the record and appends it to the history. |
| BlockChainUpdates.BlockChain.GetNameNewHeight | chain/blockchain.go:1085-1098 | The stored commitment height, or the estimate 12 below, never negative. |
| BlockChainUpdates.BlockChain.CleanupSpentUTXOsIfNeeded | chain/blockchain.go:1134-1142 | Every 100 blocks drops backups of outputs spent more than 1000 blocks ago. |
| BlockChainUpdates.BlockChain.CleanupOldExpiredNamesIfNeeded | chain/blockchain.go:1145-1153 | The same for expired names. |
| BlockChainUpdates.BlockChain.RollbackNameOperations | chain/blockchain.go:1261-1293 | Restore expired names, undo transactions last first, restore spent outputs: the new state is the specified one. |
| BlockChainUpdates.BlockChain.RollbackTransactionUTXOs | chain/blockchain.go:1296-1311 | Removes every output of a transaction. |
| BlockChainUpdates.BlockChain.RollbackTransactionNameOps | chain/blockchain.go:1315-1346 | Undoes the name operations of a transaction, last output first, passing on the commitments already restored. |
| BlockChainUpdates.BlockChain.RollbackNameOperation | chain/blockchain.go:1319-1354 | Undoes one operation; a NAME_NEW whose commitment was restored in this rollback is kept. |
| BlockChainUpdates.BlockChain.RollbackNameFirstUpdate | chain/blockchain.go:1357-1373 | Removes the registration with its history entry and restores its commitment. |
| BlockChainUpdates.BlockChain.GetNameNewHeightForRollback | chain/blockchain.go:1376-1386 | The recorded commitment height unless it is 0, else the estimate. |
| BlockChainUpdates.BlockChain.RollbackNameUpdate | chain/blockchain.go:1389-1400 | Removes the last history entry and makes the one before it the live record. |
| ChainSteps.ApplyStepsConcat | chain/blockchain.go:937-950 | Working through two stretches of a block one after the other is working through both, and fails when either fails. |
| ChainSteps.UndoEntriesConcat | chain/blockchain.go:1271-1281 | Undoing two stretches, the later first, is undoing both. |
| BlockRules.ValidateBlock | chain/blockchain.go:266-311 | The database checks of block processing pass if and only if the subsidy rule and the name rules hold. |
| BlockRules.ValidateBlockSubsidy | chain/blockchain.go:357-397 | Passes if and only if the coinbase claims at most subsidy plus fees, or the fees are skipped for want of historical outputs. |
| BlockRules.ComputeBlockFees | chain/blockchain.go:403-427 | Sums the positive fees; skips or refuses at the first transaction that does. |
| BlockRules.SumInputValues | chain/blockchain.go:823-844 | Sums live inputs; a missing one skips below the tracking height and refuses above, a negative one or an overflow refuses. |
| BlockRules.SumOutputValues | chain/blockchain.go:847-856 | Sums outputs, refusing an overflow of 64 bits. |
| BlockRules.ValidateTransactionFee | chain/blockchain.go:799-819 | Passes if and only if the fee is at least the minimum of the operation. |
| BlockRules.ValidateNameOpFees | chain/blockchain.go:704-716 | Checks each kind of operation of a transaction once; the coinbase pays none. |
| BlockRules.CollectNameOperationTypes | chain/blockchain.go:693-701 | Exactly the kinds of name operation among the outputs. |
| BlockRules.ValidateNameOperations | chain/blockchain.go:663-678 | Passes if and only if every transaction meets the rules and no commitment or name occurs twice in the block. |
| BlockRules.ValidateTransactionNameOps | chain/blockchain.go:681-690 | Fees, then outputs, against what the block has seen so far. |
| BlockRules.ValidateNameOutputs | chain/blockchain.go:719-742 | Each output meets its rules and clashes with nothing seen; what it adds is remembered. |
| BlockRules.ValidateNameOutput | chain/blockchain.go:719-755 | One output: its own rules, and nothing like it seen before. |
| BlockRules.ValidateNameNewOp | chain/blockchain.go:537-557 | At least the dust limit, a commitment neither seen nor stored. |
| BlockRules.ValidateNamedTxOut | chain/blockchain.go:560-569 | At least the dust limit, a name not yet seen in the block. |
| BlockRules.ValidateNameFirstUpdateOp | chain/blockchain.go:572-595 | The name is free or expired, and its commitment is stored and inside the window. |
| BlockRules.ValidateFirstUpdateWindow | chain/blockchain.go:597-617 | The commitment is 12 to 36000 blocks old. |
| BlockRules.ValidateNameUpdateOp | chain/blockchain.go:620-660 | The name is live and the transaction spends its output. |
| BlockRules.SpendsOutPoint | chain/blockchain.go:643-652 | Some input is the outpoint. |
| BlockRules.NoClashesOneMore | chain/blockchain.go:523-534 | The two sets of the validation context say exactly which operations would clash. |
| Mempool.ValidateMempoolTransaction | chain/blockchain.go:1445-1504 | At most one name operation, which passes at the given height with its fee, or a regular transaction. |
| Mempool.ValidateNameOperation | chain/blockchain.go:1512-1522 | For an output above the dust limit, exactly the block rule of its operation. |
| Mempool.ValidateNameFirstUpdate | chain/blockchain.go:1535-1573 | Free or expired name, commitment inside the window, lengths within limits. |
| Mempool.ValidateNameUpdate | chain/blockchain.go:1578-1615 | Live name whose output is spent, lengths within limits. |
| Mempool.ValidateRegularTransaction | chain/blockchain.go:1618-1632 | Has inputs and outputs and is no coinbase. |
| Mempool.MempoolAgrees | chain/blockchain.go:1471-1615 | For a transaction with exactly one name output that is no coinbase, the mempool check and the block check with an empty context agree at every height. |
| Mempool.MempoolRefusesSeveral | chain/blockchain.go:1486-1488 | The mempool refuses a transaction with several name outputs, at every height. |
| Mempool.NextBlockDiffers | chain/blockchain.go:1453-1468 | One block later the answers differ exactly where the window or the registration ends, or the window starts or an old registration has just ended. |
| NameDatabaseStore.NameDatabase.PutName | namedb/namedb.go:253-279 | Record and expiration mark replaced as specified, and the cache stays coherent. |
| NameDatabaseStore.NameDatabase.GetName | namedb/namedb.go:311-345 | Cache transparency: returns what the names bucket holds, whatever calls came before. |
| NameDatabaseStore.NameDatabase.DeleteName | namedb/namedb.go:348-381 | Record, mark and cache entry are gone. |
| NameDatabaseStore.NameDatabase.DeleteOldExpirationIndex | namedb/namedb.go:282-292 | Removes the mark of the record about to be replaced, and no other. |
| NameDatabaseStore.NameDatabase.DeleteHistory | namedb/namedb.go:386-418 | Every history record of the name and its list are gone. |
| NameDatabaseStore.NameDatabase.GetExpiredNames | namedb/namedb.go:425-463 | The names before the first unexpired key of the index, in index order. |
| NameDatabaseStore.NameDatabase.StoreExpiredName | namedb/namedb.go:469-503 | Backs up record, index entry and the history still on record. |
| NameDatabaseStore.NameDatabase.CopyHistoryRecords | namedb/namedb.go:531-543 | Copies exactly the listed records that exist. |
| NameDatabaseStore.NameDatabase.MoveHistoryRecords | namedb/namedb.go:597-612 | Moves exactly the listed records that exist. |
| NameDatabaseStore.NameDatabase.RestoreExpiredHistory | namedb/namedb.go:579-594 | Moves list and records of one expired name back. |
| NameDatabaseStore.NameDatabase.RestoreExpiredName | namedb/namedb.go:669-685 | One iteration of the restore: all eight buckets, and the cache forgets the name. |
| NameDatabaseStore.NameDatabase.RestoreExpiredNamesForBlock | namedb/namedb.go:656-688 | Restores every name backed up at the height and drops its backups. |
| NameDatabaseStore.NameDatabase.DropExpiredName | namedb/namedb.go:639-650 | Drops one backup with its history. |
| NameDatabaseStore.NameDatabase.CleanupOldExpiredNames | namedb/namedb.go:694-716 | Drops exactly the backups below the height. |
| NameDatabaseStore.NameDatabase.ScanNames | namedb/namedb.go:744-770 | The first count of the sorted names with the prefix, or all if there are fewer; nothing for a count that is not positive. |
| NameDatabaseStore.NameDatabase.AddHistory | namedb/namedb.go:786-814 | Stores the record under its transaction and appends the transaction to the list of the name. |
| NameDatabaseStore.NameDatabase.GetHistory | namedb/namedb.go:818-855 | The recorded history, oldest first, without missing records. |
| NameDatabaseStore.HistoryEndsLive | namedb/namedb.go:818-855 | While histories are complete, that history skips nothing, keeps its order and ends with the live record. |
| NameDatabaseStore.NameDatabase.PutNameNew | namedb/namedb.go:869-885 | Refused if and only if the commitment is stored, empty, or longer than a key can be; a refusal changes nothing. |
| NameDatabaseStore.NameDatabase.RemoveLastHistoryEntry | namedb/namedb.go:957-1010 | Drops the last entry, deletes an emptied list, and returns the record before it. |
| BucketSteps.RestoreStep | namedb/namedb.go:669-685 | Restoring one more name continues the restore of a set of names. |
| BucketSteps.DropStep | namedb/namedb.go:706-713 | Dropping one more backup continues dropping a set of them. |
| BucketSteps.PartialRestoreStep | namedb/utxo.go:404-411 | Restoring one more output continues the restore of a set of outputs. |
| Coherence.HitIsStored | namedb/cache.go:40-52 | A hit of a coherent cache is the stored record. |
| Coherence.PutCoherent | namedb/namedb.go:295-298 | Writing to bucket and cache keeps them coherent, also when an entry is evicted. |
| Coherence.WriteBehind | namedb/namedb.go:684-684 | Writing to the bucket and deleting the cache entry keeps them coherent. |
| NameDatabaseStore.NameDatabase.AddUTXO | namedb/utxo.go:174-202 | Refused if and only if oversized; otherwise output and address entry are stored. |
| NameDatabaseStore.NameDatabase.RemoveUTXO | namedb/utxo.go:205-240 | Output and address entry are gone; an unknown output changes nothing. |
| NameDatabaseStore.NameDatabase.GetUTXOsForAddress | namedb/utxo.go:282-332 | With an address index that mirrors the outputs: exactly the outputs of the address, each once, whatever the lengths of the addresses; an error for the empty address. |
| NameDatabaseStore.LookupIsExact | namedb/utxo.go:297-332 | The indexed lookup finds all outputs of the address and no others. |
| NameDatabaseStore.NameDatabase.StoreSpentUTXO | namedb/utxo.go:356-387 | Refused if and only if oversized; otherwise backup and height entry are stored. |
| NameDatabaseStore.NameDatabase.RestoreSpentUTXO | namedb/utxo.go:75-119 | One iteration of the restore. |
| NameDatabaseStore.NameDatabase.RestoreSpentUTXOsForBlock | namedb/utxo.go:392-414 | Puts back every output backed up at the height and drops the backups. |
| NameDatabaseStore.NameDatabase.CleanupOldSpentUTXOs | namedb/utxo.go:419-437 | Drops exactly the backups below the height. |
| Cursor.ExpiredScanComplete | namedb/namedb.go:425-463 | The early break loses nothing: with non-negative heights and one mark per name, the scan finds exactly the names marked below the height, each once. |
| Cursor.HeightsSorted | namedb/namedb.go:303-308 | Big-endian keys of non-negative heights sort by height. |
| Cursor.NegativeHeightSortsLast | namedb/namedb.go:303-308 | Below zero they do not: a negative height sorts after 0. |
| Cursor.HeightNameKeyInjective | namedb/namedb.go:511-516 | Height and name can be read back from a key. |
| Scans.PrefixScan | namedb/namedb.go:756-764 | Seek and walk with a limit returns the first keys with the prefix, and no other. |
| Scans.PrefixContiguous | namedb/namedb.go:757-760 | Between a prefix and a key that has it lie only keys that have it. |
| Scans.CollectKeysForHeight | namedb/namedb.go:546-556 | Exactly the index keys of the height, each once. |
| Scans.CollectKeysBeforeHeight | namedb/namedb.go:626-636 | Exactly the index keys below the height. |
| Scans.CollectSpentKeysForHeight | namedb/utxo.go:49-59 | Exactly the spent-output keys of the height, each once. |
| Scans.CollectSpentKeysBeforeHeight | namedb/utxo.go:62-72 | Exactly the spent-output keys below the height. |
| Scans.OutPointKeyInjective | namedb/utxo.go:13-18 | An outpoint can be read back from its key. |
| Scans.HeightOutKeyInjective | namedb/utxo.go:30-46 | Height and outpoint can be read back from a key. |
| Scans.AddressKeyInjective | namedb/utxo.go:21-27 | Address and outpoint can be read back from a key, because the outpoint has a fixed size. |
| Scans.AddressKeyMatches | namedb/utxo.go:325-332 | Prefix and length together tell the keys of an address from those of longer addresses. |
| Scans.PrefixAloneIsNotEnough | namedb/utxo.go:303-305 | The prefix alone does not. |
| Codec.RecordRoundTrip | namedb/namedb.go:1015-1076 | Encoding and decoding a record is the identity if and only if both strings have at most 1024 bytes and the timestamp fits 64 bits. |
| Codec.OlderVersion | namedb/namedb.go:1057-1088 | A version 2 record reads back with no commitment height. |
| Codec.DecodeNameRecord | namedb/namedb.go:1061-1076 | Reading field by field at a moving offset decodes what the specification decodes. |
| Codec.EncodeNameRecord | namedb/namedb.go:1015-1030 | Writing field by field into one buffer gives the specified bytes. |
| Codec.RecordReader.ReadStringField | namedb/namedb.go:1161-1175 | A length-prefixed string within the limit, and the offset moves past it. |
| Codec.RecordReader.ReadUint32Field | namedb/namedb.go:1151-1158 | Four little-endian bytes, or truncated. |
| Codec.RecordReader.ReadOptionalTimestamp | namedb/namedb.go:1128-1135 | Eight bytes if they are there, else the zero time. |
| Codec.RecordReader.ReadCoreFields | namedb/namedb.go:1091-1110 | The fields common to both versions. |
| Codec.UtxoRoundTrip | namedb/utxo.go:122-171 | An output is encodable if and only if address and script fit, and then decodes to itself if and only if its value fits 64 bits. |
| Codec.EncodeUTXO | namedb/utxo.go:122-141 | Filling the buffer at computed offsets gives the specified bytes. |
| Limits.BlockRecordsAreStorable | namedb/namedb.go:1015-1076 | What a valid block writes about a name the decoder reads back, for owner addresses of at most 1024 bytes. |
| Lru.LruCache.Get | namedb/cache.go:40-52 | A hit returns the value and moves the entry to the front of the recency list; a miss changes nothing. |
| Lru.LruCache.Put | namedb/cache.go:58-84 | The entry goes to the front; a new key beyond the capacity drops the last one, and only that is reported as an eviction. |
| Lru.LruCache.Delete | namedb/cache.go:88-97 | The entry goes, and only an existing one is reported. |
| Lru.PutKeepsShape | namedb/cache.go:58-84 | Keys stay distinct, the size never exceeds the capacity, and the new value is found. |
| Lru.GetKeepsShape | namedb/cache.go:40-52 | A lookup permutes the entries and loses none. |
| Lru.RecencyList.MoveToFront | chain/auxpow_cache.go:61-66 | Map and list stay in bijection while an element moves to the front. |
| Lru.RecencyList.RemoveElement | chain/auxpow_cache.go:141-145 | Map and list stay in bijection while an element leaves both. |
| Lru.RecencyList.PushFront | chain/auxpow_cache.go:84-88 | Map and list stay in bijection while an element enters both. |
| Lru.RecencyList.SetFront | chain/auxpow_cache.go:77-82 | The front element gets a new value in place. |
| Lru.RecencyList.RemoveBack | chain/auxpow_cache.go:132-137 | The element used longest ago leaves. |
| BatchWrites.BatchWriter.PutName | namedb/batch.go:56-62 | Buffers the write; puts and deletes stay disjoint, and the log still describes buckets plus buffers, whatever the batch size; commits exactly when this write makes the batch reach its maximum. |
| BatchWrites.BatchWriter.DeleteName | namedb/batch.go:66-71 | Likewise for a delete. |
| BatchWrites.BatchWriter.AddUTXO | namedb/batch.go:96-101 | Likewise for an output, as long as none is added again after a removal. |
| BatchWrites.BatchWriter.RemoveUTXO | namedb/batch.go:105-109 | Likewise for the removal of an output. |
| BatchWrites.BatchWriter.Commit | namedb/batch.go:121-135 | Batching is unobservable: after a commit, names, expiration index and outputs are those that the logged writes leave one by one, and the cache is coherent; a commit fails exactly when an oversized output is buffered, and then changes nothing. |
| BatchWrites.BatchWriter.AutoCommitIfNeeded | namedb/batch.go:112-117 | A full batch is committed, and if that fails nothing changes; a batch that is not full, as with a maximum of 0, changes nothing. |
| BatchWrites.BatchWriter.ApplyWrites | namedb/batch.go:138-145 | Puts, then deletes, then output additions, then removals. |
| BatchWrites.BatchWriter.WriteNames | namedb/batch.go:148-175 | In any iteration order: every buffered record, with an index that mirrors the names. |
| BatchWrites.BatchWriter.DeleteNames | namedb/batch.go:196-217 | In any iteration order: every buffered delete. |
| BatchWrites.BatchWriter.UpdateCache | namedb/batch.go:369-377 | The cache catches up with the committed names in any iteration order. |
| BatchSteps.UnbatchedMirrored | namedb/batch.go:179-235 | Writes made one by one keep the expiration index a mirror of the names. |
| BatchSteps.AddBeforeRemoves | namedb/batch.go:138-145 | Adding an output commutes with removing others. |
| BatchSteps.BatchedUtxosIff | namedb/batch.go:286-346 | One batch of output writes leaves the outputs that writing them one by one leaves if and only if no output ends up added again after a removal. |
| BatchSteps.BatchedStateIff | namedb/batch.go:286-369 | The same for outputs and address index together, as an outpoint determines its address. |
| PushCodec.PushRoundTripIff | wallet/wallet.go:662-682 | A push is read back at any offset, whatever surrounds it, if and only if the data has at most 2^31-1 bytes; up to 2^32-1 bytes can be written. |
| PushCodec.PushRoundTrip | chain/name_script.go:320-385 | The reader inverts the writer, across all four push sizes. |
| PushCodec.ReadExactly | chain/name_script.go:320-385 | The reader returns data and end exactly when a push of that data stands there; it stays in bounds and moves forward. |
| PushCodec.ReadPushData | chain/name_script.go:320-385 | The step-by-step reader computes the specified push. |
| NameScript.ParserDecidesFormat | chain/name_script.go:132-197 | The parser accepts exactly the scripts opcode, pushed fields, drop opcodes, suffix of at least 25 bytes, and returns the fields. |
| NameScript.ParseNameScriptFull | chain/name_script.go:132-197 | The branch-by-branch parser computes the specified result. |
| NameScript.ParseNameValue | chain/name_script.go:201-211 | Name and value, one push after the other. |
| NameScript.ValidateScriptFormat | chain/name_script.go:74-124 | The offset after the drop opcodes, if they are there and 25 bytes follow. |
| NameScript.WalksAgree | chain/name_script.go:260-310 | On every accepted script the second walk stops at the same offset as the validator, with at least 25 bytes left. |
| NameScript.SkipNameScriptPrefix | chain/name_script.go:260-271 | The second walk computes the specified offset. |
| NameScript.SkipNameFirstUpdatePrefix | chain/name_script.go:286-295 | Three pushes and up to two drops. |
| NameScript.SkipNameUpdatePrefix | chain/name_script.go:298-310 | Two pushes and up to two different drops. |
| NameScript.SkipPushDataFields | chain/name_script.go:214-223 | Skips that many pushes, or fails. |
| NameScript.BuildNameScript | wallet/wallet.go:593-605 | Opcode, pushes, drops and owner script, or an error for a field that is too long. |
| NameScript.BuildThenParse | wallet/wallet.go:576-659 | Builder and parser are inverse: operation and fields come back, and what is left behind both walks is exactly the pay-to-pubkey-hash script. |
| NameScript.BuildNameNewScript | wallet/wallet.go:615-626 | Succeeds if and only if hash and key hash have 20 bytes; the script carries the commitment. |
| NameScript.BuildNameFirstUpdateScript | wallet/wallet.go:638-659 | Succeeds if and only if lengths are valid and the salt is hexadecimal; the script carries name, decoded salt and value. |
| NameScript.BuildNameUpdateScript | wallet/wallet.go:576-585 | Succeeds if and only if lengths are valid; the script carries name and value. |
| Registration.TwoPhaseRegistration | wallet/wallet.go:909-1080 | End to end, after any allowed run of connects and disconnects: if a surviving block includes the wallet's NAME_NEW and no later surviving block uses the commitment up, the wallet's NAME_FIRSTUPDATE passes the block rules k blocks after it if and only if 12 <= k <= 36000 and the name is free or expired. |
| Registration.RegistrationPasses | chain/blockchain.go:572-617 | The second phase alone, for any database that stores the commitment. |
| Registration.CommitmentStored | chain/blockchain.go:1026-1035 | Connecting a valid block with a NAME_NEW stores its commitment with the height of the block. |
| Registration.CommitmentWaits | chain/blockchain.go:882-898 | On any chain of valid blocks the commitment stays, with the height of the block that registered it, until a first update uses it up. |
| Registration.RegistrationPays | chain/blockchain.go:859-879 | The wallet's registration pays the minimum fee of a name operation. |
| Registration.CarriedOutput | chain/name_script.go:242-257 | An output built by the wallet has the intended operation and belongs to the address of the key it names. |
| WalletTx.BuildNameTransaction | wallet/wallet.go:977-1014 | Inputs, name output and change of at least the dust limit, with 64-bit sums, or an error when the funds do not reach. |
| WalletTx.CreateNameNewTx | wallet/wallet.go:909-949 | Built if and only if the inputs are accepted and the change is not negative; the first output carries the commitment of salt and name, and the change goes to the same key. |
| WalletTx.CreateNameFirstUpdateTx | wallet/wallet.go:1033-1103 | Built if and only if the inputs are accepted, the wallet has the key of the NAME_NEW coin, and the change is not negative; the first output reveals salt, name and value, and the change goes to that key. |
| WalletTx.BurnFeeIsPaid | wallet/wallet.go:986-1011 | A transaction that is built pays the burn fee, with or without change, if and only if the coins cover the name output, even when a 64-bit sum wraps. |
| WalletTx.EmptyCoinPays | wallet/wallet.go:986-995 | With less than the name output in coins, a fee rate near the 64-bit limit wraps the subtraction and yields change instead of an error. |
| Merkle.CheckMerkleBranch | chain/auxpow.go:397-426 | Holds if and only if the walk ends in the root. |
| Merkle.ComputeChainMerkleRoot | chain/auxpow.go:335-350 | Computes the end of the same walk. |
| Merkle.LeafIsProved | chain/auxpow.go:397-426 | In a perfect tree of depth at most 32 the sibling path of leaf i is accepted with side mask i. |
| Merkle.Completeness | chain/auxpow.go:397-426 | And with any mask whose low bits are i. |
| Merkle.Soundness | chain/auxpow.go:397-426 | An accepted path of the depth of the tree proves the leaf at the low bits of the mask, or two colliding inputs of the hash function are read off. |
| Merkle.OneLeafPerPlace | chain/auxpow.go:397-426 | Two leaves accepted at one place are equal, or the hash function collides. |
| Merkle.LowIsRemainder | chain/auxpow.go:401-406 | The low bits of the mask are its remainder modulo a power of two. |
| Commitment.CheckMergeMiningCommitment | chain/auxpow.go:469-514 | Succeeds if and only if the branch has fewer than 32 levels and exactly one position starts a commitment: magic, root in either byte order, tree size; overlapping positions count. |
| Commitment.Index | chain/auxpow.go:480-484 | The first occurrence of a pattern, or none. |
| Commitment.ReverseHashBytes | chain/auxpow.go:449-455 | The bytes in reverse order. |
| Commitment.ReversedTwice | chain/auxpow.go:449-455 | Reversing twice is the identity. |
| Commitment.ValidateChainCommitment | chain/auxpow.go:301-333 | Direct, branch or commitment check, by the length of the branch. |
| Commitment.CommittedBlockIsLeaf | chain/auxpow.go:301-350 | If the coinbase commits to no tree of the branch's depth but one and the check passes, but not by ending in the coinbase hash, then the block is the leaf at the masked index, or the hash function collides, or the branch ends in the root with its bytes reversed. |
| Commitment.LeafIsCommitted | chain/auxpow.go:301-350 | If the coinbase commits to the tree once, the check passes for every leaf with its path. |
| Commitment.ReversedRootPasses | chain/auxpow.go:488-505 | A branch that ends in the reversed root passes as well. |
| RateLimiting.RateLimiter.Allow | rpc/ratelimit.go:70-125 | Decides and updates the table as specified. |
| RateLimiting.RateLimiter.Touch | rpc/ratelimit.go:76-101 | The address comes to the front; a new one gets a full bucket and may drop the last of a full table. |
| RateLimiting.RateLimiter.Sweep | rpc/ratelimit.go:142-152 | Exactly the buckets idle for more than ten minutes go, the others keep their order. |
| RateLimiting.SizeBound | rpc/ratelimit.go:82-86 | The number of tracked addresses never exceeds the maximum, or 1 if that is not positive. |
| RateBounds.RequestLevels | rpc/ratelimit.go:104-125 | A request is allowed exactly when its address has a whole token, takes that token, and changes no other address. |
| RateBounds.AllowedAtMost | rpc/ratelimit.go:70-125 | In any window of m minutes without a capacity eviction of the address, at most rate * (1 + m) requests are allowed. |
| RateBounds.SweepingIsUnobservable | rpc/ratelimit.go:142-152 | While no request meets a full table, sweeping at any times changes no decision. |
| RateBounds.StaleIsFull | rpc/ratelimit.go:142-152 | A bucket idle for ten minutes would be full again. |
| Outcome.NameWritten | chain/blockchain.go:1011-1131 | After connecting a valid block, the record of a name that output j of transaction i writes has the value of the operation, the address of the output behind the name prefix, that transaction and index, the height and time of the block, and expiry 36000 blocks on; an update keeps the commitment height of the record before, a registration has the stored height of its commitment, or 12 below when an output before it has used the commitment; the transaction is appended to the history. |
| Outcome.NameNotWritten | chain/blockchain.go:903-934 | A name that no output writes stays, with record and history, if and only if it has not expired. |
| Outcome.CommitmentsAfter | chain/blockchain.go:1026-1050 | The commitments of the block are stored with its height, those its registrations use are gone, all others stay as they were. |
| Outcome.OutputsAfter | chain/blockchain.go:937-1008 | The outputs that can be spent afterwards are those of the block, each with its value, address, script and height, and the earlier ones that no transaction but the first spends. |
| Outcome.StorableExactly | namedb/namedb.go:869-885 | When connecting fails half-way, output by output: an address over 255 or a script over 65535 bytes, a commitment of 0 or over 32768. |
| Registration.RegistrationRecorded | wallet/wallet.go:1033-1103 | After the block with the wallet's NAME_FIRSTUPDATE the name has the wallet's value, the address of the script of its key hash, output 0 of that transaction as owner, and the height of the block that stored the commitment. |
| DeclaredRules.BlockExactly | chain/blockchain.go:357-427 | From the height on from which outputs are tracked, exactly these blocks pass: the first transaction pays out at most the subsidy and what the others leave over, every output may stand on its own, each name transaction leaves its fee, and no two outputs conflict. Sums are over all inputs and outputs. |
| DeclaredRules.FeeExactly | chain/blockchain.go:799-819 | A transaction passes the fee check if and only if it leaves 1,000 for a NAME_NEW or 1,000,000 for a registration or an update. |
| DeclaredRules.OutputExactly | chain/blockchain.go:537-660 | An output passes on its own if and only if it has 546 units, its commitment is new, or stored 12 to 36000 blocks ago for a name that is free or expired, or the transaction spends the output of a name that has not expired; names have 1 to 255 bytes and values at most 520. |
| DeclaredRules.ConflictsExactly | chain/blockchain.go:537-569 | A block has no clash if and only if no two of its outputs make one commitment or write one name. |
| DeclaredRules.SubsidyExactly | chain/blockchain.go:357-427 | The subsidy check, with the fees as the sum of what each transaction leaves over. |
| DeclaredRules.UntrackedFee | chain/blockchain.go:823-844 | Below the height from which outputs are tracked, a transaction with an unknown input after inputs that fit passes the fee check whatever it pays, and no other passes without its fee. |
| DeclaredRules.UntrackedSubsidy | chain/blockchain.go:391-427 | There a block with such a transaction, after ones that add up, is not held to subsidy and fees, and every other block is. |
| SubsidySchedule.SubsidyIsHalved | config/subsidy.go:37-60 | After k halvings the subsidy is 50 coins divided by 2^k and rounded down, and nothing from 64 halvings on. |
| SubsidySchedule.SubsidyOneIntervalLater | config/subsidy.go:37-60 | One interval later the subsidy is half of what it was, at every height. |
| SubsidySchedule.FirstHalving | config/subsidy.go:13-60 | 50 coins in the first interval, 25 in the second. |
| Admission.PaymentsAdmitted | chain/blockchain.go:1618-1632 | A transaction without name outputs is admitted if and only if it has an output and its first input refers to a transaction hash that is not all zero. |
| Admission.NameOperationsAdmitted | chain/blockchain.go:1471-1615 | A transaction with one name output is admitted if and only if that output may stand at the height of the tip and the transaction leaves 1,000 or 1,000,000. |
| Admission.SeveralRefused | chain/blockchain.go:1484-1486 | A transaction with two name outputs is not admitted. |
| Retention.BackupsAreRecent | chain/blockchain.go:1134-1153 | After any allowed run from the empty database no backup of a name or of an output is more than 1100 blocks below the tip. |
| Retention.BackupsAreDropped | chain/blockchain.go:1134-1153 | From any start the same holds from 100 blocks above it on. |
| CommitmentBytes.CommittedByBytes | chain/auxpow.go:301-333 | Which coinbases pass, for every branch length: without a branch, those that hold the block hash, forwards or backwards, at some position; with 1 to 32 siblings all when the branch ends in the coinbase hash, and else up to 31 siblings those with exactly one entry of fa be 6d 6d, the end of the branch in either order, and 2^n in four bytes, lowest first. |
| CommitmentBytes.OneEntryPasses | chain/auxpow.go:469-514 | Bytes with one such entry and no second magic pass. |
| CommitmentBytes.WalkFromLeaf | chain/auxpow.go:335-350 | The walk from the leaf up: the first sibling joins on the right when the mask is even, on the left when it is odd, and the walk goes on with half the mask. |
| CommitmentBytes.RootOfTwo | chain/auxpow.go:397-426 | The root over two leaves is the hash of the first followed by the second. |
| ScriptMachine.OwnerCanSpend | wallet/wallet.go:566-605 | Run on a signature and a key, a whole name script succeeds if and only if the key hashes to the key hash, and leaves whether the signature is one of that key: the drops take away exactly the name opcode and the fields. |
| ScriptMachine.RunOwner | wallet/wallet.go:565-572 | The same for the 25 bytes behind the prefix: duplicate, hash, compare, check the signature. |
| ScriptMachine.CarriedOwner | chain/name_script.go:242-310 | The script behind the prefix of an output that carries an operation is such a script of 25 bytes. |
| ScriptMachine.NewScriptBytes | wallet/wallet.go:615-626 | A built NAME_NEW is d0, the pushed commitment, 6d, 76 a9 14, the key hash, 88 ac. |
| ScriptMachine.FirstUpdateScriptBytes | wallet/wallet.go:638-659 | A built NAME_FIRSTUPDATE is d1, name, salt and value pushed, 6d 6d, and the same end. |
| ScriptMachine.UpdateScriptBytes | wallet/wallet.go:576-585 | A built NAME_UPDATE is d2, name and value pushed, 6d 75, and the same end. |
| ScriptMachine.NewByBytes | chain/name_script.go:132-152 | The scripts parsed as a NAME_NEW: d0, a push of the commitment, 6d, at least 25 bytes more. |
| ScriptMachine.FirstUpdateByBytes | chain/name_script.go:154-175 | The scripts parsed as a NAME_FIRSTUPDATE: d1, pushes of name, salt and value, 6d 6d, at least 25 bytes more. |
| ScriptMachine.UpdateByBytes | chain/name_script.go:177-198 | The scripts parsed as a NAME_UPDATE: d2, pushes of name and value, 6d 75, at least 25 bytes more. |
| PushBytes.ShortestPush | wallet/wallet.go:662-682 | No push that the reader accepts is shorter than the one the wallet writes, and no other is as short. |
| PushBytes.ReadByBytes | chain/name_script.go:320-385 | Data is read where a length up to 75 stands before it, or 4c, 4d, 4e and the length in 1, 2, 4 bytes, lowest first, below 2^31. |
| PushBytes.WrittenBytes | wallet/wallet.go:662-682 | The bytes the wallet writes for data of any length. |
| WalletAmounts.FundedExactly | wallet/wallet.go:977-1014 | While no amount exceeds 64 bits, a transaction is built if and only if the coins cover output and fee; it spends all coins in order, and gives back a rest of 546 or more. |
| WalletAmounts.FeeIs | wallet/wallet.go:986-995 | The fee is the rate for 148 bytes a coin, the script and 44 bytes more, or the least fee if that is higher. |
| WalletAmounts.FeeOfAnotherCoin | wallet/wallet.go:986-995 | Another coin costs 148 times the rate. |
| WalletAmounts.HexExactly | wallet/wallet.go:647-652 | The salt is read from exactly the strings of two hexadecimal digits a byte, the higher digit first. |
| Recency.HeldIffRecent | namedb/cache.go:40-97 | After any lookups, insertions and deletions on an empty cache of n places, a key is held if and only if it was used and not deleted since, and at no time since its last use n other keys had been used after it and not been deleted; the keys in front of it are those used after it. |
| Recency.HeldWithoutDeletions | namedb/cache.go:58-84 | Without deletions: if and only if fewer than n other keys were used after its last use. |
| Recency.HeldValue | namedb/cache.go:58-84 | A key that is held has the value stored last. |
| Recency.NewKeyGoesToFront | namedb/cache.go:73-84 | A new key goes in front of the others in their order, and of a full list only the last one is lost. |
| Recency.KnownKeyMovesToFront | namedb/cache.go:44-71 | A key that is there moves to the front, or out of the list, and the others keep their order. |
| Recency.RequestByPlaces | rpc/ratelimit.go:70-125 | A request: its address in front, used now, with the tokens it had and earned up to the rate, less one if it had one; a new address starts with the rate; the last address of a full table is dropped for it. |
| Recency.RequestKeepsOrder | rpc/ratelimit.go:70-138 | The table stays in order of use, so the address dropped is one unused for the longest time. |
| Recency.SweepKeepsRecent | rpc/ratelimit.go:142-152 | A sweep keeps exactly the addresses used in the last ten minutes, in order. |
| Layout.RecordBytes | namedb/namedb.go:1015-1055 | Where each field of a stored record stands, byte by byte. |
| Layout.RecordReadExactly | namedb/namedb.go:1061-1185 | The bytes that are read as a given record, in versions 2 and 3, with and without a time, and no others. |
| Layout.OutputBytes | namedb/utxo.go:122-141 | Where each field of a stored output stands. |
| Layout.OutputReadExactly | namedb/utxo.go:144-171 | The bytes that are read as a given output, and no others. |
| Layout.HeightNameBytes | namedb/namedb.go:303-308 | A height key is the height, highest byte first, and the name. |
| Layout.OutPointBytes | namedb/utxo.go:13-18 | An output key is the transaction and the index, highest byte first. |
| Layout.SpentBytes | namedb/utxo.go:30-36 | A spent-output key is the height, the transaction and the index. |

## Left out

- btcd: fork choice, proof of work, signatures, block processing. The model starts where a
  validated block is connected to the tip or the tip is disconnected, and does not claim that
  the database follows btcd's main chain when btcd reorganises several blocks by itself.
- bbolt: files, transactions and their errors. Its limits on keys are modelled where a valid
  block can meet them, for NAME_NEW commitments, and not for direct calls with an empty name.
  Corrupt bucket data. The buckets hold decoded records, and `Codec` says which records survive
  the encoding.
- The state after a failed connect. Every database call is its own transaction, so earlier calls
  stay; the model says only when a connect fails.
- Aliasing: the copies made of cached and buffered records are values here.
- The batch writer's history and NAME_NEW writes. The order of two history entries of one name
  is that of a map iteration, and a NAME_NEW overwrites an existing commitment instead of being
  refused.
- BlockRules.ValidateBlock: without proof of work, block version and merged-mining proof, which
  `Merkle` and `Commitment` treat on their own.
- BlockChainUpdates.BlockChain.ProcessBlock: what btcd answers, side chains and orphans among it.
- BatchWrites.BatchWriter.ApplyWrites: without the history and NAME_NEW writes above.
- BatchWrites.BatchWriter.Commit: likewise; and an oversized output is looked for before anything is written,
  which stands for the rollback of the transaction.
- NameDatabaseStore.NameDatabase.GetUTXOsForAddress: seek, walk and lookup are two passes, one
  over the keys and one over the outputs.
- BlockRules.SumOutputValues: a sum of negative values is not wrapped below the 64-bit minimum;
  btcd admits no negative output.
- That the output of a live name is unspent. Validation checks that an update spends it, not
  that nothing else does.
- Fees of the wallet's NAME_NEW and NAME_UPDATE transactions, which are not held to the minimum;
  the wallet's keys, signatures and encryption.
- WalletTx.BuildNameTransaction: the estimated size is not wrapped to 64 bits; it is far below.
- Wire formats of blocks, transactions and merged-mining proofs, addresses, and hexadecimal
  output. The chain id in a block version.
- The policy checks on namespaces, JSON and UTF-8 for names made by the wallet and the RPC.
- RateLimiting.RateLimiter.Allow: tokens and times are real numbers, so floating-point rounding
  is not modelled; the clock that the code reads is a parameter.
- Locks and goroutines, beyond treating each locked section as one step.
- Listing of all names, clearing of caches, and lookups that only combine others.
- Network, client, RPC handlers, mail, bridge, metrics, logging, load tests and commands.
