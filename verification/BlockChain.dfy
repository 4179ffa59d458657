/**
 The chain's name-database side: what it does when a block is connected to the tip and when
 the tip is disconnected.  Chain says what the outcome is.
 */
module BlockChainUpdates {
  import opened Bytes
  import opened Records
  import opened Chain
  import opened ChainSteps
  import opened NameDatabaseStore
  import opened BlockRules
  import opened Validation
  import BucketSteps
  import Coherence
  import Cursor
  import Lru
  import N = NameStore
  import U = UtxoSet

  /** A block is rejected by its rules, fails while the buckets are updated, or is connected. */
  datatype Outcome = Rejected | Failed | Connected

  class BlockChain {
    const nameDB: NameDatabase
    const params: Params

    constructor (nameDB: NameDatabase, params: Params)
      ensures this.nameDB == nameDB && this.params == params
    {
      this.nameDB, this.params := nameDB, params;
    }

    ghost function State(): Db
      reads nameDB
    {
      Db(nameDB.Names(), nameDB.Utxos())
    }

    // ----- connecting -----

    /** Backs up one expired name, if it is still stored. */
    method BackUpName(name: Name, height: Height)
      requires nameDB.Valid()
      modifies nameDB, nameDB.cache.Repr
      ensures nameDB.Valid() && fresh(nameDB.cache.Repr - old(nameDB.cache.Repr))
      ensures nameDB.Live() == old(nameDB.Live()) && nameDB.Utxos() == old(nameDB.Utxos())
      ensures nameDB.Back() ==
              if name !in old(nameDB.names) then old(nameDB.Back())
              else N.StoreExpired(old(nameDB.Back()), nameDB.history, N.HistoryOf(nameDB.Live(), name), name, nameDB.names[name], height)
    {
      hide N.StoreExpired, N.HistoryOf, BucketSteps.NoEmptyLists, Coherence.Coherent, Lru.LruCache.Valid;
      var record := nameDB.GetName(name);
      if record.Some? {
        nameDB.StoreExpiredName(name, record.value, height);
      }
    }

    /** Backs up one expired name and deletes it with its history. */
    method ExpireName(name: Name, height: Height)
      requires nameDB.Valid()
      modifies nameDB, nameDB.cache.Repr
      ensures nameDB.Valid() && fresh(nameDB.cache.Repr - old(nameDB.cache.Repr))
      ensures nameDB.Names() == N.ExpireOne(old(nameDB.Names()), name, height)
      ensures nameDB.Utxos() == old(nameDB.Utxos())
    {
      hide N.DeleteName, N.DeleteHistory, N.StoreExpired, N.HistoryOf, BucketSteps.NoEmptyLists, Coherence.Coherent, Lru.LruCache.Valid;
      BackUpName(name, height);
      nameDB.DeleteName(name);
      nameDB.DeleteHistory(name);
    }

    method HandleExpiredNames(height: Height)
      requires nameDB.Valid()
      modifies nameDB, nameDB.cache.Repr
      ensures nameDB.Valid() && fresh(nameDB.cache.Repr - old(nameDB.cache.Repr))
      ensures nameDB.Names() == ExpireNames(old(nameDB.Names()), height)
      ensures nameDB.Utxos() == old(nameDB.Utxos())
    {
      hide N.ExpireOne, Cursor.GetExpiredNames;
      ghost var d := nameDB.Names();
      var expired := nameDB.GetExpiredNames(height);
      for i := 0 to |expired|
        invariant nameDB.Valid() && fresh(nameDB.cache.Repr - old(nameDB.cache.Repr))
        invariant nameDB.Names() == N.ExpireAll(d, expired[..i], height)
        invariant nameDB.Utxos() == old(nameDB.Utxos())
      {
        assert expired[..i + 1][..i] == expired[..i];
        ExpireName(expired[i], height);
      }
      assert expired[..|expired|] == expired;
    }

    /** Backs up and removes the outputs a transaction spends. */
    method ProcessTransactionInputs(tx: Tx, height: Height) returns (ok: bool)
      requires nameDB.Valid()
      modifies nameDB`utxo, nameDB`utxoAddr, nameDB`spentUtxo, nameDB`spentUtxoIdx
      ensures nameDB.Valid()
      ensures ok <==> U.StepsOk(old(nameDB.Utxos()), SpendSteps(tx), height)
      ensures ok ==> nameDB.Utxos() == U.ApplySteps(old(nameDB.Utxos()), SpendSteps(tx), height)
    {
      hide U.RemoveUtxo, U.StoreSpent, BucketSteps.NoEmptyLists, Coherence.Coherent, Lru.LruCache.Valid;
      ghost var u, steps := nameDB.Utxos(), SpendSteps(tx);
      for i := 0 to |tx.ins|
        invariant nameDB.Valid()
        invariant U.StepsOk(u, steps[..i], height)
        invariant nameDB.Utxos() == U.ApplySteps(u, steps[..i], height)
      {
        assert steps[..i + 1][..i] == steps[..i];
        var utxo := nameDB.GetUTXO(tx.ins[i]);
        if utxo.Some? {
          var stored := nameDB.StoreSpentUTXO(tx.ins[i], utxo.value, height);
          if !stored {
            if U.StepsOk(u, steps, height) { StepsPrefixOk(u, steps, i + 1, height); }
            return false;
          }
        }
        nameDB.RemoveUTXO(tx.ins[i]);
      }
      assert steps[..|tx.ins|] == steps;
      ok := true;
    }

    /** Writes the record of a NAME_FIRSTUPDATE or NAME_UPDATE and its history entry. */
    method StoreName(e: N.Entry, height: Height, time: int, nameNewHeight: Height)
      requires nameDB.Valid() && e.op.Names()
      modifies nameDB, nameDB.cache.Repr
      ensures nameDB.Valid() && fresh(nameDB.cache.Repr - old(nameDB.cache.Repr))
      ensures nameDB.Live() == N.WriteName(old(nameDB.Live()), e.tx, e.op.name, N.NewRecord(e, e.op.value, height, time, nameNewHeight))
      ensures nameDB.Back() == old(nameDB.Back()) && nameDB.Utxos() == old(nameDB.Utxos())
    {
      hide N.PutName, N.AddHistory, BucketSteps.NoEmptyLists, Coherence.Coherent, Lru.LruCache.Valid;
      var record := N.NewRecord(e, e.op.value, height, time, nameNewHeight);
      nameDB.PutName(e.op.name, record);
      nameDB.AddHistory(e.tx, e.op.name, record);
    }

    method GetNameNewHeight(commit: Bytes, height: Height) returns (r: Height)
      ensures r == N.NameNewHeight(nameDB.Live(), commit, height)
    {
      var stored := nameDB.GetNameNew(commit);
      if stored.Some? {
        return stored.value;
      }
      r := if height - MIN_BLOCKS_BEFORE_FIRST_UPDATE < 0 then 0 else height - MIN_BLOCKS_BEFORE_FIRST_UPDATE;
    }

    /** Carries out the name operation of an output; only a NAME_NEW can be refused. */
    method ProcessNameOperation(e: N.Entry, height: Height, time: int) returns (ok: bool)
      requires nameDB.Valid()
      modifies nameDB, nameDB.cache.Repr
      ensures nameDB.Valid() && fresh(nameDB.cache.Repr - old(nameDB.cache.Repr))
      ensures ok <==> N.EntryOk(old(nameDB.Live()), e)
      ensures ok ==> nameDB.Live() == N.ApplyEntry(old(nameDB.Live()), e, height, time)
      ensures nameDB.Back() == old(nameDB.Back()) && nameDB.Utxos() == old(nameDB.Utxos())
    {
      hide N.NewRecord;
      ok := true;
      match e.op {
        case NoOp =>
        case NewOp(commit) =>
          ok := nameDB.PutNameNew(commit, height);
        case FirstUpdateOp(name, value, commit) =>
          var nameNewHeight := GetNameNewHeight(commit, height);
          StoreName(e, height, time, nameNewHeight);
          nameDB.DeleteNameNew(commit);
        case UpdateOp(name, value) =>
          var previous := nameDB.GetName(name);
          StoreName(e, height, time, if previous.Some? then previous.value.nameNewHeight else 0);
      }
    }

    /** Adds an output and carries out its name operation. */
    method ProcessOutput(tx: Tx, i: nat, height: Height, time: int) returns (ok: bool)
      requires nameDB.Valid() && i < |tx.outs|
      modifies nameDB, nameDB.cache.Repr
      ensures nameDB.Valid() && fresh(nameDB.cache.Repr - old(nameDB.cache.Repr))
      ensures ok <==> U.StepOk(old(nameDB.Utxos()), CreateStep(tx, i, height)) && N.EntryOk(old(nameDB.Live()), EntryOf(tx, i))
      ensures ok ==> nameDB.Utxos() == U.ApplyStep(old(nameDB.Utxos()), CreateStep(tx, i, height), height)
                     && nameDB.Live() == N.ApplyEntry(old(nameDB.Live()), EntryOf(tx, i), height, time)
      ensures nameDB.Back() == old(nameDB.Back())
    {
      hide U.AddUtxo, N.ApplyEntry, N.EntryOk, Encodable, BucketSteps.NoEmptyLists, Coherence.Coherent, Lru.LruCache.Valid;
      var out := tx.outs[i];
      ok := nameDB.AddUTXO(OutPoint(tx.id, i % TWO_32), Utxo(out.value, out.address, out.script, height));
      if ok {
        ok := ProcessNameOperation(EntryOf(tx, i), height, time);
      }
    }

    /** Adds the outputs of a transaction and carries out their name operations. */
    method ProcessTransactionOutputs(tx: Tx, height: Height, time: int) returns (ok: bool)
      requires nameDB.Valid()
      modifies nameDB, nameDB.cache.Repr
      ensures nameDB.Valid() && fresh(nameDB.cache.Repr - old(nameDB.cache.Repr))
      ensures ok <==> U.StepsOk(old(nameDB.Utxos()), CreateSteps(tx, height), height)
                      && N.EntriesOk(old(nameDB.Live()), TxEntries(tx), height, time)
      ensures ok ==> nameDB.Utxos() == U.ApplySteps(old(nameDB.Utxos()), CreateSteps(tx, height), height)
                     && nameDB.Live() == N.ApplyEntries(old(nameDB.Live()), TxEntries(tx), height, time)
      ensures nameDB.Back() == old(nameDB.Back())
    {
      hide U.ApplyStep, N.ApplyEntry, U.StepOk, N.EntryOk, CreateStep, EntryOf, BucketSteps.NoEmptyLists, Coherence.Coherent, Lru.LruCache.Valid;
      ghost var u, l, steps, es := nameDB.Utxos(), nameDB.Live(), CreateSteps(tx, height), TxEntries(tx);
      for i := 0 to |tx.outs|
        invariant nameDB.Valid() && fresh(nameDB.cache.Repr - old(nameDB.cache.Repr))
        invariant U.StepsOk(u, steps[..i], height) && N.EntriesOk(l, es[..i], height, time)
        invariant nameDB.Utxos() == U.ApplySteps(u, steps[..i], height)
        invariant nameDB.Live() == N.ApplyEntries(l, es[..i], height, time)
        invariant nameDB.Back() == old(nameDB.Back())
      {
        assert steps[..i + 1][..i] == steps[..i] && es[..i + 1][..i] == es[..i];
        var processed := ProcessOutput(tx, i, height, time);
        if !processed {
          if U.StepsOk(u, steps, height) && N.EntriesOk(l, es, height, time) {
            StepsPrefixOk(u, steps, i + 1, height);
            EntriesPrefixOk(l, es, i + 1, height, time);
          }
          return false;
        }
      }
      assert steps[..|tx.outs|] == steps && es[..|tx.outs|] == es;
      ok := true;
    }

    /** The inputs of a transaction, unless it is the coinbase, and then its outputs. */
    method ProcessTransaction(tx: Tx, idx: nat, height: Height, time: int) returns (ok: bool)
      requires nameDB.Valid()
      modifies nameDB, nameDB.cache.Repr
      ensures nameDB.Valid() && fresh(nameDB.cache.Repr - old(nameDB.cache.Repr))
      ensures ok <==> U.StepsOk(old(nameDB.Utxos()), TxSteps(tx, idx, height), height)
                      && N.EntriesOk(old(nameDB.Live()), TxEntries(tx), height, time)
      ensures ok ==> nameDB.Utxos() == U.ApplySteps(old(nameDB.Utxos()), TxSteps(tx, idx, height), height)
                     && nameDB.Live() == N.ApplyEntries(old(nameDB.Live()), TxEntries(tx), height, time)
      ensures nameDB.Back() == old(nameDB.Back())
    {
      hide SpendSteps, CreateSteps, TxEntries, U.ApplyStep, N.ApplyEntry, U.StepOk, N.EntryOk,
        BucketSteps.NoEmptyLists, Coherence.Coherent, Lru.LruCache.Valid;
      var spends: bool := idx > 0;
      ApplyStepsConcat(nameDB.Utxos(), if spends then SpendSteps(tx) else [], CreateSteps(tx, height), height);
      if spends {
        var spent := ProcessTransactionInputs(tx, height);
        if !spent {
          return false;
        }
      }
      ok := ProcessTransactionOutputs(tx, height, time);
    }

    method ProcessBlockTransactions(b: Block, height: Height) returns (ok: bool)
      requires nameDB.Valid()
      modifies nameDB, nameDB.cache.Repr
      ensures nameDB.Valid() && fresh(nameDB.cache.Repr - old(nameDB.cache.Repr))
      ensures ok <==> U.StepsOk(old(nameDB.Utxos()), BlockSteps(b.txs, height), height)
                      && N.EntriesOk(old(nameDB.Live()), BlockEntries(b.txs), height, b.time)
      ensures ok ==> nameDB.Utxos() == U.ApplySteps(old(nameDB.Utxos()), BlockSteps(b.txs, height), height)
                     && nameDB.Live() == N.ApplyEntries(old(nameDB.Live()), BlockEntries(b.txs), height, b.time)
      ensures nameDB.Back() == old(nameDB.Back())
    {
      hide TxSteps, TxEntries, U.ApplySteps, N.ApplyEntries, U.StepsOk, N.EntriesOk, BucketSteps.NoEmptyLists, Coherence.Coherent, Lru.LruCache.Valid;
      ghost var u, l, txs := nameDB.Utxos(), nameDB.Live(), b.txs;
      NothingDone(u, l, txs, height, b.time);
      for i := 0 to |b.txs|
        invariant nameDB.Valid() && fresh(nameDB.cache.Repr - old(nameDB.cache.Repr))
        invariant U.StepsOk(u, BlockSteps(txs[..i], height), height) && N.EntriesOk(l, BlockEntries(txs[..i]), height, b.time)
        invariant nameDB.Utxos() == U.ApplySteps(u, BlockSteps(txs[..i], height), height)
        invariant nameDB.Live() == N.ApplyEntries(l, BlockEntries(txs[..i]), height, b.time)
        invariant nameDB.Back() == old(nameDB.Back())
      {
        OneMoreTransaction(u, l, txs, i, height, b.time);
        var processed := ProcessTransaction(b.txs[i], i, height, b.time);
        if !processed {
          return false;
        }
      }
      assert txs[..|txs|] == txs;
      ok := true;
    }

    method CleanupSpentUTXOsIfNeeded(height: Height)
      requires nameDB.Valid()
      modifies nameDB`spentUtxo, nameDB`spentUtxoIdx
      ensures nameDB.Valid()
      ensures nameDB.Utxos() == if PrunesAt(height) then U.PruneSpent(old(nameDB.Utxos()), height - RETENTION_DEPTH) else old(nameDB.Utxos())
    {
      hide U.PruneSpent, BucketSteps.NoEmptyLists, Coherence.Coherent, Lru.LruCache.Valid;
      if height > RETENTION_DEPTH && height % 100 == 0 {
        nameDB.CleanupOldSpentUTXOs(height - RETENTION_DEPTH);
      }
    }

    method CleanupOldExpiredNamesIfNeeded(height: Height)
      requires nameDB.Valid()
      modifies nameDB`expiredNames, nameDB`expiredNamesIdx, nameDB`expiredHist, nameDB`expiredHistIdx
      ensures nameDB.Valid()
      ensures nameDB.Back() == if PrunesAt(height) then N.PruneExpired(old(nameDB.Back()), height - RETENTION_DEPTH) else old(nameDB.Back())
    {
      hide N.PruneExpired, BucketSteps.NoEmptyLists, Coherence.Coherent, Lru.LruCache.Valid;
      if height > RETENTION_DEPTH && height % 100 == 0 {
        nameDB.CleanupOldExpiredNames(height - RETENTION_DEPTH);
      }
    }

    /** Connects a block: the outcome is Connect, and it is refused exactly when Connect says so. */
    method UpdateNameDatabase(b: Block, height: Height) returns (ok: bool)
      requires nameDB.Valid()
      modifies nameDB, nameDB.cache.Repr
      ensures nameDB.Valid() && fresh(nameDB.cache.Repr - old(nameDB.cache.Repr))
      ensures ok <==> ConnectOk(old(State()), b, height)
      ensures ok ==> State() == Connect(old(State()), b, height)
    {
      hide ExpireNames, BlockSteps, BlockEntries, U.ApplySteps, N.ApplyEntries, U.StepsOk, N.EntriesOk;
      hide U.PruneSpent, N.PruneExpired, BucketSteps.NoEmptyLists, Coherence.Coherent, Lru.LruCache.Valid, PrunesAt, Connect, ConnectOk;
      ConnectByBuckets(State(), b, height);
      HandleExpiredNames(height);
      ok := ProcessBlockTransactions(b, height);
      if ok {
        CleanupSpentUTXOsIfNeeded(height);
        CleanupOldExpiredNamesIfNeeded(height);
      }
    }

    /** Validates a block and, when it extends the tip, updates the name database with it. */
    method ProcessBlock(b: Block, height: Height) returns (r: Outcome)
      requires nameDB.Valid() && params.Valid()
      modifies nameDB, nameDB.cache.Repr
      ensures nameDB.Valid() && fresh(nameDB.cache.Repr - old(nameDB.cache.Repr))
      ensures r.Rejected? <==> !BlockOk(params, old(State()), b, height)
      ensures r.Connected? <==> BlockOk(params, old(State()), b, height) && ConnectOk(old(State()), b, height)
      ensures r.Rejected? ==> State() == old(State())
      ensures r.Connected? ==> State() == Connect(old(State()), b, height)
    {
      hide BlockOk, ConnectOk, Connect, BucketSteps.NoEmptyLists, Coherence.Coherent, Lru.LruCache.Valid;
      var valid := ValidateBlock(nameDB, params, b, height);
      if !valid {
        return Rejected;
      }
      var updated := UpdateNameDatabase(b, height);
      r := if updated then Connected else Failed;
    }

    // ----- disconnecting -----

    method GetNameNewHeightForRollback(name: Name, height: Height) returns (r: Height)
      requires nameDB.Valid()
      modifies nameDB.cache.Repr
      ensures nameDB.Valid() && fresh(nameDB.cache.Repr - old(nameDB.cache.Repr))
      ensures r == N.RollbackHeight(nameDB.Live(), name, height)
      ensures nameDB.Names() == old(nameDB.Names()) && nameDB.Utxos() == old(nameDB.Utxos())
    {
      hide BucketSteps.NoEmptyLists, Coherence.Coherent, Lru.LruCache.Valid;
      var record := nameDB.GetName(name);
      if record.Some? && record.value.nameNewHeight != 0 {
        return record.value.nameNewHeight;
      }
      r := if height - MIN_BLOCKS_BEFORE_FIRST_UPDATE < 0 then 0 else height - MIN_BLOCKS_BEFORE_FIRST_UPDATE;
    }

    /** Deletes a registration and restores its commitment. */
    method RollbackNameFirstUpdate(name: Name, commit: Bytes, height: Height)
      requires nameDB.Valid()
      modifies nameDB, nameDB.cache.Repr
      ensures nameDB.Valid() && fresh(nameDB.cache.Repr - old(nameDB.cache.Repr))
      ensures nameDB.Live() == N.UndoFirstUpdate(old(nameDB.Live()), name, commit, height)
      ensures nameDB.Back() == old(nameDB.Back()) && nameDB.Utxos() == old(nameDB.Utxos())
    {
      hide N.RemoveLastHistory, N.PreviousRecord, N.DeleteName, N.RollbackHeight;
      hide BucketSteps.NoEmptyLists, Coherence.Coherent, Lru.LruCache.Valid;
      var nameNewHeight := GetNameNewHeightForRollback(name, height);
      var previous := nameDB.RemoveLastHistoryEntry(name);
      nameDB.DeleteName(name);
      nameDB.RestoreNameNew(commit, nameNewHeight);
    }

    /** Takes back an update: the previous record of the history becomes the live one again. */
    method RollbackNameUpdate(name: Name)
      requires nameDB.Valid()
      modifies nameDB, nameDB.cache.Repr
      ensures nameDB.Valid() && fresh(nameDB.cache.Repr - old(nameDB.cache.Repr))
      ensures nameDB.Live() == N.UndoUpdate(old(nameDB.Live()), name)
      ensures nameDB.Back() == old(nameDB.Back()) && nameDB.Utxos() == old(nameDB.Utxos())
    {
      hide N.RemoveLastHistory, N.PreviousRecord, N.PutName;
      hide BucketSteps.NoEmptyLists, Coherence.Coherent, Lru.LruCache.Valid;
      var previous := nameDB.RemoveLastHistoryEntry(name);
      if previous.Some? {
        nameDB.PutName(name, previous.value);
      }
    }

    /** Takes back one name operation; restored holds the commitments this rollback restored. */
    method RollbackNameOperation(op: N.NameOp, height: Height, restored: set<Bytes>, ghost e: N.Entry) returns (restored': set<Bytes>)
      requires nameDB.Valid() && e.op == op
      modifies nameDB, nameDB.cache.Repr
      ensures nameDB.Valid() && fresh(nameDB.cache.Repr - old(nameDB.cache.Repr))
      ensures N.Undoing(nameDB.Live(), restored') == N.UndoEntry(N.Undoing(old(nameDB.Live()), restored), e, height)
      ensures nameDB.Back() == old(nameDB.Back()) && nameDB.Utxos() == old(nameDB.Utxos())
    {
      hide N.UndoFirstUpdate, N.UndoUpdate, BucketSteps.NoEmptyLists, Coherence.Coherent, Lru.LruCache.Valid;
      restored' := restored;
      match op {
        case NoOp =>
        case NewOp(commit) =>
          if commit !in restored {
            nameDB.DeleteNameNew(commit);
          }
        case FirstUpdateOp(name, value, commit) =>
          RollbackNameFirstUpdate(name, commit, height);
          restored' := restored + {commit};
        case UpdateOp(name, value) =>
          RollbackNameUpdate(name);
      }
    }

    /** Takes back the name operations of a transaction, last output first. */
    method RollbackTransactionNameOps(tx: Tx, height: Height, restored: set<Bytes>) returns (restored': set<Bytes>)
      requires nameDB.Valid()
      modifies nameDB, nameDB.cache.Repr
      ensures nameDB.Valid() && fresh(nameDB.cache.Repr - old(nameDB.cache.Repr))
      ensures N.Undoing(nameDB.Live(), restored') == N.UndoEntries(N.Undoing(old(nameDB.Live()), restored), TxEntries(tx), height)
      ensures nameDB.Back() == old(nameDB.Back()) && nameDB.Utxos() == old(nameDB.Utxos())
    {
      hide N.UndoEntry, BucketSteps.NoEmptyLists, Coherence.Coherent, Lru.LruCache.Valid;
      ghost var s, es := N.Undoing(nameDB.Live(), restored), TxEntries(tx);
      restored' := restored;
      var j := |tx.outs|;
      assert es[..j] == es;
      while j > 0
        invariant j <= |tx.outs|
        invariant nameDB.Valid() && fresh(nameDB.cache.Repr - old(nameDB.cache.Repr))
        invariant N.UndoEntries(s, es, height) == N.UndoEntries(N.Undoing(nameDB.Live(), restored'), es[..j], height)
        invariant nameDB.Back() == old(nameDB.Back()) && nameDB.Utxos() == old(nameDB.Utxos())
      {
        j := j - 1;
        assert es[..j + 1][..j] == es[..j];
        restored' := RollbackNameOperation(tx.outs[j].op, height, restored', es[j]);
      }
    }

    /** Removes the outputs a transaction created. */
    method RollbackTransactionUTXOs(tx: Tx)
      requires nameDB.Valid()
      modifies nameDB`utxo, nameDB`utxoAddr
      ensures nameDB.Valid()
      ensures nameDB.Utxos() == U.RemoveAll(old(nameDB.Utxos()), TxOutPoints(tx))
    {
      hide U.RemoveUtxo, BucketSteps.NoEmptyLists, Coherence.Coherent, Lru.LruCache.Valid;
      ghost var u, ops := nameDB.Utxos(), TxOutPoints(tx);
      for i := 0 to |tx.outs|
        invariant nameDB.Valid()
        invariant nameDB.Utxos() == U.RemoveAll(u, ops[..i])
      {
        assert ops[..i + 1][..i] == ops[..i];
        nameDB.RemoveUTXO(OutPoint(tx.id, i % TWO_32));
      }
      assert ops[..|tx.outs|] == ops;
    }

    /**
     Disconnects a block: restores what it expired, takes its transactions back last first,
     and restores what it spent.  The outcome is Disconnect.
     */
    method RollbackNameOperations(b: Block, height: Height)
      requires nameDB.Valid()
      modifies nameDB, nameDB.cache.Repr
      ensures nameDB.Valid() && fresh(nameDB.cache.Repr - old(nameDB.cache.Repr))
      ensures State() == Disconnect(old(State()), b, height)
    {
      hide N.RestoreExpired, N.UndoEntries, U.RemoveAll, U.RestoreSpent, TxEntries, TxOutPoints;
      hide BucketSteps.NoEmptyLists, Coherence.Coherent, Lru.LruCache.Valid;
      nameDB.RestoreExpiredNamesForBlock(height);
      ghost var l, u, txs := nameDB.Live(), nameDB.Utxos(), b.txs;
      var restored: set<Bytes> := {};
      ghost var s := N.Undoing(l, restored);
      var i := |b.txs|;
      assert txs[..i] == txs;
      while i > 0
        invariant i <= |b.txs|
        invariant nameDB.Valid() && fresh(nameDB.cache.Repr - old(nameDB.cache.Repr))
        invariant N.UndoEntries(s, BlockEntries(txs), height) == N.UndoEntries(N.Undoing(nameDB.Live(), restored), BlockEntries(txs[..i]), height)
        invariant U.RemoveAll(u, RemovalOrder(txs)) == U.RemoveAll(nameDB.Utxos(), RemovalOrder(txs[..i]))
        invariant nameDB.Back() == N.RestoreExpired(old(nameDB.Names()), height).back
      {
        i := i - 1;
        OneTransactionBack(nameDB.Utxos(), N.Undoing(nameDB.Live(), restored), txs, i, height);
        RollbackTransactionUTXOs(b.txs[i]);
        restored := RollbackTransactionNameOps(b.txs[i], height, restored);
      }
      AllBack(nameDB.Utxos(), N.Undoing(nameDB.Live(), restored), txs, height);
      nameDB.RestoreSpentUTXOsForBlock(height);
    }
  }

  // ----- the loops, one transaction further -----

  lemma ConnectByBuckets(db: Db, b: Block, h: Height)
    ensures var expired := ExpireNames(db.n, h);
            && (ConnectOk(db, b, h) <==> N.EntriesOk(expired.live, BlockEntries(b.txs), h, b.time) && U.StepsOk(db.u, BlockSteps(b.txs, h), h))
            && var live, u := N.ApplyEntries(expired.live, BlockEntries(b.txs), h, b.time), U.ApplySteps(db.u, BlockSteps(b.txs, h), h);
               Connect(db, b, h) == if PrunesAt(h)
                                    then Db(N.NameDb(live, N.PruneExpired(expired.back, h - RETENTION_DEPTH)), U.PruneSpent(u, h - RETENTION_DEPTH))
                                    else Db(N.NameDb(live, expired.back), u)
  {
  }

  lemma NothingDone(u: U.UtxoDb, l: N.Live, txs: seq<Tx>, h: Height, time: int)
    ensures BlockSteps(txs[..0], h) == [] && BlockEntries(txs[..0]) == []
    ensures U.StepsOk(u, BlockSteps(txs[..0], h), h) && N.EntriesOk(l, BlockEntries(txs[..0]), h, time)
    ensures U.ApplySteps(u, BlockSteps(txs[..0], h), h) == u
    ensures N.ApplyEntries(l, BlockEntries(txs[..0]), h, time) == l
  {
  }

  lemma OneMoreTransaction(u: U.UtxoDb, l: N.Live, txs: seq<Tx>, i: nat, h: Height, time: int)
    requires i < |txs|
    requires U.StepsOk(u, BlockSteps(txs[..i], h), h) && N.EntriesOk(l, BlockEntries(txs[..i]), h, time)
    ensures var u', l' := U.ApplySteps(u, BlockSteps(txs[..i], h), h), N.ApplyEntries(l, BlockEntries(txs[..i]), h, time);
            && U.ApplySteps(u, BlockSteps(txs[..i + 1], h), h) == U.ApplySteps(u', TxSteps(txs[i], i, h), h)
            && N.ApplyEntries(l, BlockEntries(txs[..i + 1]), h, time) == N.ApplyEntries(l', TxEntries(txs[i]), h, time)
            && (U.StepsOk(u, BlockSteps(txs[..i + 1], h), h) <==> U.StepsOk(u', TxSteps(txs[i], i, h), h))
            && (N.EntriesOk(l, BlockEntries(txs[..i + 1]), h, time) <==> N.EntriesOk(l', TxEntries(txs[i]), h, time))
            && (U.StepsOk(u, BlockSteps(txs, h), h) && N.EntriesOk(l, BlockEntries(txs), h, time) ==>
                  U.StepsOk(u', TxSteps(txs[i], i, h), h) && N.EntriesOk(l', TxEntries(txs[i]), h, time))
  {
    assert txs[..i + 1][..i] == txs[..i];
    ApplyStepsConcat(u, BlockSteps(txs[..i], h), TxSteps(txs[i], i, h), h);
    ApplyEntriesConcat(l, BlockEntries(txs[..i]), TxEntries(txs[i]), h, time);
    if U.StepsOk(u, BlockSteps(txs, h), h) && N.EntriesOk(l, BlockEntries(txs), h, time) {
      PrefixOk(l, u, txs, i + 1, h, time);
    }
  }

  lemma OneTransactionBack(u: U.UtxoDb, s: N.Undoing, txs: seq<Tx>, i: nat, h: Height)
    requires i < |txs|
    ensures U.RemoveAll(u, RemovalOrder(txs[..i + 1])) == U.RemoveAll(U.RemoveAll(u, TxOutPoints(txs[i])), RemovalOrder(txs[..i]))
    ensures N.UndoEntries(s, BlockEntries(txs[..i + 1]), h) == N.UndoEntries(N.UndoEntries(s, TxEntries(txs[i]), h), BlockEntries(txs[..i]), h)
  {
    assert txs[..i + 1][..i] == txs[..i];
    RemoveAllConcat(u, TxOutPoints(txs[i]), RemovalOrder(txs[..i]));
    UndoEntriesConcat(s, BlockEntries(txs[..i]), TxEntries(txs[i]), h);
  }

  lemma AllBack(u: U.UtxoDb, s: N.Undoing, txs: seq<Tx>, h: Height)
    ensures N.UndoEntries(s, BlockEntries(txs[..0]), h) == s && U.RemoveAll(u, RemovalOrder(txs[..0])) == u
  {
  }
}
