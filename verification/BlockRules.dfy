/**
 The validation code: running sums with early exits, and the walk over a block's outputs that
 remembers the commitments and names it has seen.  Validation says which blocks pass.
 */
module BlockRules {
  import opened Bytes
  import opened Records
  import opened Chain
  import opened Validation
  import opened NameDatabaseStore
  import BucketSteps
  import Coherence
  import Lru
  import N = NameStore
  import U = UtxoSet

  // ----- running sums -----

  /** A sum that is skipped or refused part of the way stays so. */
  lemma {:induction false} InputsStop(u: U.UtxoDb, ins: seq<OutPoint>, i: nat, h: Height, trackFrom: int)
    requires i <= |ins| && !SumInputs(u, ins[..i], h, trackFrom).Total?
    ensures SumInputs(u, ins, h, trackFrom) == SumInputs(u, ins[..i], h, trackFrom)
    decreases |ins|
  {
    if i == |ins| {
      assert ins[..i] == ins;
    } else {
      assert ins[..|ins| - 1][..i] == ins[..i];
      InputsStop(u, ins[..|ins| - 1], i, h, trackFrom);
    }
  }

  lemma {:induction false} OutputsStop(outs: seq<Output>, i: nat)
    requires i <= |outs| && !SumOutputs(outs[..i]).Total?
    ensures SumOutputs(outs) == SumOutputs(outs[..i])
    decreases |outs|
  {
    if i == |outs| {
      assert outs[..i] == outs;
    } else {
      assert outs[..|outs| - 1][..i] == outs[..i];
      OutputsStop(outs[..|outs| - 1], i);
    }
  }

  lemma {:induction false} FeesStop(u: U.UtxoDb, txs: seq<Tx>, i: nat, h: Height, trackFrom: int)
    requires i <= |txs| && !BlockFees(u, txs[..i], h, trackFrom).Total?
    ensures BlockFees(u, txs, h, trackFrom) == BlockFees(u, txs[..i], h, trackFrom)
    decreases |txs|
  {
    if i == |txs| {
      assert txs[..i] == txs;
    } else {
      assert txs[..|txs| - 1][..i] == txs[..i];
      FeesStop(u, txs[..|txs| - 1], i, h, trackFrom);
    }
  }

  method SumOutputValues(tx: Tx) returns (r: Sum)
    ensures r == SumOutputs(tx.outs)
  {
    var total := 0;
    for i := 0 to |tx.outs|
      invariant SumOutputs(tx.outs[..i]) == Total(total)
    {
      assert tx.outs[..i + 1][..i] == tx.outs[..i];
      var value := tx.outs[i].value;
      if total > 0 && value > 0 && total > MAX_INT64 - value {
        OutputsStop(tx.outs, i + 1);
        return Refused;
      }
      total := total + value;
    }
    assert tx.outs[..|tx.outs|] == tx.outs;
    r := Total(total);
  }

  method SumInputValues(nameDB: NameDatabase, tx: Tx, height: Height, trackFrom: int) returns (r: Sum)
    ensures r == SumInputs(nameDB.Utxos(), tx.ins, height, trackFrom)
  {
    ghost var u := nameDB.Utxos();
    var total := 0;
    for i := 0 to |tx.ins|
      invariant SumInputs(u, tx.ins[..i], height, trackFrom) == Total(total)
    {
      assert tx.ins[..i + 1][..i] == tx.ins[..i];
      var utxo := nameDB.GetUTXO(tx.ins[i]);
      if utxo.None? {
        InputsStop(u, tx.ins, i + 1, height, trackFrom);
        return if height < trackFrom then Skip else Refused;
      }
      var value := utxo.value.value;
      if value < 0 || (total > 0 && value > 0 && total > MAX_INT64 - value) {
        InputsStop(u, tx.ins, i + 1, height, trackFrom);
        return Refused;
      }
      total := total + value;
    }
    assert tx.ins[..|tx.ins|] == tx.ins;
    r := Total(total);
  }

  method ComputeBlockFees(nameDB: NameDatabase, txs: seq<Tx>, height: Height, trackFrom: int) returns (r: Sum)
    ensures r == BlockFees(nameDB.Utxos(), txs, height, trackFrom)
  {
    hide SumInputs, SumOutputs;
    ghost var u := nameDB.Utxos();
    var totalFees := 0;
    for i := 0 to |txs|
      invariant BlockFees(u, txs[..i], height, trackFrom) == Total(totalFees)
    {
      assert txs[..i + 1][..i] == txs[..i];
      var inputSum := SumInputValues(nameDB, txs[i], height, trackFrom);
      if !inputSum.Total? {
        FeesStop(u, txs, i + 1, height, trackFrom);
        return inputSum;
      }
      var outputSum := SumOutputValues(txs[i]);
      if !outputSum.Total? {
        FeesStop(u, txs, i + 1, height, trackFrom);
        return Refused;
      }
      var fee := inputSum.value - outputSum.value;
      if fee > 0 {
        totalFees := totalFees + fee;
      }
    }
    assert txs[..|txs|] == txs;
    r := Total(totalFees);
  }

  /** Passes exactly when the coinbase claims at most the subsidy and the fees. */
  method ValidateBlockSubsidy(nameDB: NameDatabase, p: Params, b: Block, height: Height) returns (ok: bool)
    requires p.Valid()
    ensures ok <==> SubsidyOk(p, nameDB.Utxos(), b, height)
  {
    hide SumOutputs, BlockFees, CalcBlockSubsidy;
    if |b.txs| == 0 {
      return false;
    }
    var totalOutput := SumOutputValues(b.txs[0]);
    if !totalOutput.Total? {
      return false;
    }
    if height < 0 {
      return true;
    }
    var maxSubsidy := CalcBlockSubsidy(height, p.interval);
    var totalFees := ComputeBlockFees(nameDB, b.txs[1..], height, p.trackFrom);
    match totalFees {
      case Skip => ok := true;
      case Refused => ok := false;
      case Total(fees) => ok := totalOutput.value <= maxSubsidy + fees;
    }
  }

  // ----- fees of name operations -----

  method ValidateTransactionFee(nameDB: NameDatabase, p: Params, tx: Tx, t: OpType, height: Height) returns (ok: bool)
    ensures ok <==> TransactionFeeOk(p, nameDB.Utxos(), tx, t, height)
  {
    hide SumOutputs, SumInputs;
    if |tx.ins| == 0 {
      return false;
    }
    var totalInput := SumInputValues(nameDB, tx, height, p.trackFrom);
    match totalInput {
      case Refused => ok := false;
      case Skip => ok := true;
      case Total(spent) =>
        var totalOutput := SumOutputValues(tx);
        ok := totalOutput.Total? && spent - totalOutput.value >= 0 && spent - totalOutput.value >= MinFee(t);
    }
  }

  /** The kinds of name operation among a transaction's outputs. */
  method CollectNameOperationTypes(tx: Tx) returns (types: set<OpType>)
    ensures forall t :: t in types <==> exists j :: 0 <= j < |tx.outs| && !tx.outs[j].op.NoOp? && TypeOf(tx.outs[j].op) == t
  {
    types := {};
    for i := 0 to |tx.outs|
      invariant forall t :: t in types <==> exists j :: 0 <= j < i && !tx.outs[j].op.NoOp? && TypeOf(tx.outs[j].op) == t
    {
      if !tx.outs[i].op.NoOp? {
        types := types + {TypeOf(tx.outs[i].op)};
      }
    }
  }

  method ValidateNameOpFees(nameDB: NameDatabase, p: Params, tx: Tx, idx: nat, height: Height) returns (ok: bool)
    ensures ok <==> FeesOk(p, nameDB.Utxos(), tx, idx, height)
  {
    hide TransactionFeeOk;
    var types := CollectNameOperationTypes(tx);
    if types == {} || idx == 0 {
      assert forall j :: 0 <= j < |tx.outs| && !tx.outs[j].op.NoOp? ==> TypeOf(tx.outs[j].op) in types;
      return true;
    }
    var rest := types;
    while rest != {}
      invariant rest <= types
      invariant forall t :: t in types - rest ==> TransactionFeeOk(p, nameDB.Utxos(), tx, t, height)
      decreases |rest|
    {
      var t :| t in rest;
      var paid := ValidateTransactionFee(nameDB, p, tx, t, height);
      if !paid {
        var j :| 0 <= j < |tx.outs| && !tx.outs[j].op.NoOp? && TypeOf(tx.outs[j].op) == t;
        return false;
      }
      rest := rest - {t};
    }
    assert forall j :: 0 <= j < |tx.outs| && !tx.outs[j].op.NoOp? ==> TypeOf(tx.outs[j].op) in types;
    ok := true;
  }

  // ----- the name rules -----

  function SeenCommits(es: seq<N.Entry>): set<Bytes> {
    if es == [] then {}
    else
      var op := es[|es| - 1].op;
      SeenCommits(es[..|es| - 1]) + if op.NewOp? then {op.commit} else {}
  }

  function SeenNames(es: seq<N.Entry>): set<Name> {
    if es == [] then {}
    else
      var op := es[|es| - 1].op;
      SeenNames(es[..|es| - 1]) + if op.Names() then {op.name} else {}
  }

  /** The operation clashes with none of those seen. */
  predicate Unseen(commits: set<Bytes>, names: set<Name>, op: N.NameOp) {
    && (op.NewOp? ==> op.commit !in commits)
    && (op.Names() ==> op.name !in names)
  }

  lemma {:induction false} SeenFrom(es: seq<N.Entry>)
    ensures forall c :: c in SeenCommits(es) <==> exists i :: 0 <= i < |es| && es[i].op.NewOp? && es[i].op.commit == c
    ensures forall n :: n in SeenNames(es) <==> exists i :: 0 <= i < |es| && es[i].op.Names() && es[i].op.name == n
  {
    if es != [] {
      var n := |es| - 1;
      SeenFrom(es[..n]);
      assert forall i :: 0 <= i < n ==> es[i] == es[..n][i];
    }
  }

  lemma NoClashesOneMore(es: seq<N.Entry>, e: N.Entry)
    ensures NoClashes(es + [e]) <==> NoClashes(es) && Unseen(SeenCommits(es), SeenNames(es), e.op)
    ensures SeenCommits(es + [e]) == SeenCommits(es) + (if e.op.NewOp? then {e.op.commit} else {})
    ensures SeenNames(es + [e]) == SeenNames(es) + (if e.op.Names() then {e.op.name} else {})
  {
    UnseenIsClashFree(es, e);
    ClashesSnoc(es, e);
    assert (es + [e])[..|es|] == es;
    hide Clash, Unseen, NoClashes;
  }

  lemma ClashesSnoc(es: seq<N.Entry>, e: N.Entry)
    ensures NoClashes(es + [e]) <==> NoClashes(es) && forall i :: 0 <= i < |es| ==> !Clash(es[i].op, e.op)
  {
    hide Clash;
    var all := es + [e];
    assert forall i :: 0 <= i < |es| ==> all[i] == es[i];
    if NoClashes(all) {
      assert forall i :: 0 <= i < |es| ==> !Clash(all[i].op, all[|es|].op);
      assert forall i, j :: 0 <= i < j < |es| ==> !Clash(all[i].op, all[j].op);
    }
    if NoClashes(es) && forall i :: 0 <= i < |es| ==> !Clash(es[i].op, e.op) {
      forall i, j | 0 <= i < j < |all| ensures !Clash(all[i].op, all[j].op) {
        assert j < |es| ==> !Clash(es[i].op, es[j].op);
      }
    }
  }

  /** An operation is unseen exactly when it clashes with none before it. */
  lemma UnseenIsClashFree(es: seq<N.Entry>, e: N.Entry)
    ensures Unseen(SeenCommits(es), SeenNames(es), e.op) <==> forall i :: 0 <= i < |es| ==> !Clash(es[i].op, e.op)
  {
    SeenFrom(es);
    hide SeenCommits, SeenNames;
  }

  lemma NoClashesPrefix(es: seq<N.Entry>, prefix: seq<N.Entry>)
    requires prefix <= es && NoClashes(es)
    ensures NoClashes(prefix)
  {
    assert forall i :: 0 <= i < |prefix| ==> prefix[i] == es[i];
    forall i, j | 0 <= i < j < |prefix| ensures !Clash(prefix[i].op, prefix[j].op) {
      assert !Clash(es[i].op, es[j].op);
    }
  }

  lemma {:induction false} EntriesPrefix(txs: seq<Tx>, i: nat)
    requires i < |txs|
    ensures BlockEntries(txs[..i + 1]) == BlockEntries(txs[..i]) + TxEntries(txs[i])
    ensures BlockEntries(txs[..i + 1]) <= BlockEntries(txs)
    decreases |txs|
  {
    assert txs[..i + 1][..i] == txs[..i];
    if i + 1 == |txs| {
      assert txs[..i + 1] == txs;
    } else {
      var n := |txs| - 1;
      EntriesPrefix(txs[..n], i);
      assert txs[..n][..i + 1] == txs[..i + 1];
    }
  }

  class NameValidationContext {
    var seenNameNewCommits: set<Bytes>
    var seenNames: set<Name>

    /** What the context remembers of the entries already validated. */
    ghost predicate Tracks(es: seq<N.Entry>)
      reads this
    {
      seenNameNewCommits == SeenCommits(es) && seenNames == SeenNames(es)
    }

    constructor ()
      ensures Tracks([])
    {
      seenNameNewCommits, seenNames := {}, {};
    }
  }

  method ValidateNameNewOp(nameDB: NameDatabase, value: int, commit: Bytes, ctx: NameValidationContext) returns (ok: bool)
    modifies ctx
    ensures ok <==> value >= DUST_LIMIT && commit !in old(ctx.seenNameNewCommits) && commit !in nameDB.nameNew
    ensures ok ==> ctx.seenNameNewCommits == old(ctx.seenNameNewCommits) + {commit} && ctx.seenNames == old(ctx.seenNames)
  {
    if value < DUST_LIMIT || commit in ctx.seenNameNewCommits {
      return false;
    }
    ctx.seenNameNewCommits := ctx.seenNameNewCommits + {commit};
    var stored := nameDB.GetNameNew(commit);
    ok := stored.None?;
  }

  method ValidateNamedTxOut(value: int, name: Name, ctx: NameValidationContext) returns (ok: bool)
    modifies ctx
    ensures ok <==> value >= DUST_LIMIT && name !in old(ctx.seenNames)
    ensures ok ==> ctx.seenNames == old(ctx.seenNames) + {name} && ctx.seenNameNewCommits == old(ctx.seenNameNewCommits)
  {
    if value < DUST_LIMIT || name in ctx.seenNames {
      return false;
    }
    ctx.seenNames := ctx.seenNames + {name};
    ok := true;
  }

  method ValidateFirstUpdateWindow(nameDB: NameDatabase, commit: Bytes, height: Height) returns (ok: bool)
    ensures ok <==> WindowOk(nameDB.Live(), commit, height)
  {
    var stored := nameDB.GetNameNew(commit);
    if stored.None? || height < stored.value {
      return false;
    }
    var blocksSinceNew := height - stored.value;
    ok := blocksSinceNew >= MIN_BLOCKS_BEFORE_FIRST_UPDATE && blocksSinceNew <= MAX_BLOCKS_BEFORE_FIRST_UPDATE;
  }

  method ValidateNameFirstUpdateOp(nameDB: NameDatabase, value: int, name: Name, commit: Bytes, height: Height, ctx: NameValidationContext)
    returns (ok: bool)
    requires nameDB.Valid() && ctx !in nameDB.cache.Repr
    modifies ctx, nameDB.cache.Repr
    ensures nameDB.Valid() && fresh(nameDB.cache.Repr - old(nameDB.cache.Repr))
    ensures ok <==> value >= DUST_LIMIT && name !in old(ctx.seenNames)
                    && AvailableAt(nameDB.Live(), name, height) && WindowOk(nameDB.Live(), commit, height)
    ensures ok ==> ctx.seenNames == old(ctx.seenNames) + {name} && ctx.seenNameNewCommits == old(ctx.seenNameNewCommits)
  {
    hide WindowOk, BucketSteps.NoEmptyLists, Coherence.Coherent, Lru.LruCache.Valid;
    ok := ValidateNamedTxOut(value, name, ctx);
    if !ok {
      return false;
    }
    var existing := nameDB.GetName(name);
    if existing.Some? && existing.value.expiresAt >= height {
      return false;
    }
    ok := ValidateFirstUpdateWindow(nameDB, commit, height);
  }

  method ValidateNameUpdateOp(nameDB: NameDatabase, tx: Tx, value: int, name: Name, height: Height, ctx: NameValidationContext)
    returns (ok: bool)
    requires nameDB.Valid() && ctx !in nameDB.cache.Repr
    modifies ctx, nameDB.cache.Repr
    ensures nameDB.Valid() && fresh(nameDB.cache.Repr - old(nameDB.cache.Repr))
    ensures ok <==> value >= DUST_LIMIT && name !in old(ctx.seenNames) && OwnedBy(nameDB.Live(), name, tx.ins, height)
    ensures ok ==> ctx.seenNames == old(ctx.seenNames) + {name} && ctx.seenNameNewCommits == old(ctx.seenNameNewCommits)
  {
    hide BucketSteps.NoEmptyLists, Coherence.Coherent, Lru.LruCache.Valid;
    ok := ValidateNamedTxOut(value, name, ctx);
    if !ok {
      return false;
    }
    var record := nameDB.GetName(name);
    if record.None? || record.value.expiresAt < height {
      return false;
    }
    ok := SpendsOutPoint(tx, OutPoint(record.value.txHash, record.value.outIndex));
  }

  method SpendsOutPoint(tx: Tx, op: OutPoint) returns (found: bool)
    ensures found <==> op in tx.ins
  {
    found := false;
    for i := 0 to |tx.ins|
      invariant op !in tx.ins[..i]
    {
      assert tx.ins[..i + 1] == tx.ins[..i] + [tx.ins[i]];
      if tx.ins[i] == op {
        return true;
      }
    }
    assert tx.ins[..|tx.ins|] == tx.ins;
  }

  /** The rules for one output: its own, and that the block has nothing like it yet. */
  method ValidateNameOutput(nameDB: NameDatabase, tx: Tx, o: Output, height: Height, ctx: NameValidationContext) returns (ok: bool)
    requires nameDB.Valid() && ctx !in nameDB.cache.Repr
    modifies ctx, nameDB.cache.Repr
    ensures nameDB.Valid() && fresh(nameDB.cache.Repr - old(nameDB.cache.Repr))
    ensures ok <==> OutputOk(nameDB.Live(), tx, o, height) && Unseen(old(ctx.seenNameNewCommits), old(ctx.seenNames), o.op)
    ensures ok ==> ctx.seenNameNewCommits == old(ctx.seenNameNewCommits) + (if o.op.NewOp? then {o.op.commit} else {})
    ensures ok ==> ctx.seenNames == old(ctx.seenNames) + (if o.op.Names() then {o.op.name} else {})
  {
    hide WindowOk, OwnedBy, AvailableAt, BucketSteps.NoEmptyLists, Coherence.Coherent, Lru.LruCache.Valid;
    match o.op {
      case NoOp =>
        ok := true;
      case NewOp(commit) =>
        ok := ValidateNameNewOp(nameDB, o.value, commit, ctx);
      case FirstUpdateOp(name, value, commit) =>
        ok := ValidateNameFirstUpdateOp(nameDB, o.value, name, commit, height, ctx);
        ok := ok && FormatOk(name, value);
      case UpdateOp(name, value) =>
        ok := ValidateNameUpdateOp(nameDB, tx, o.value, name, height, ctx);
        ok := ok && FormatOk(name, value);
    }
  }

  method ValidateNameOutputs(nameDB: NameDatabase, tx: Tx, height: Height, ctx: NameValidationContext, ghost done: seq<N.Entry>)
    returns (ok: bool)
    requires nameDB.Valid() && ctx !in nameDB.cache.Repr
    requires ctx.Tracks(done) && NoClashes(done)
    modifies ctx, nameDB.cache.Repr
    ensures nameDB.Valid() && fresh(nameDB.cache.Repr - old(nameDB.cache.Repr))
    ensures ok <==> NoClashes(done + TxEntries(tx)) && forall j :: 0 <= j < |tx.outs| ==> OutputOk(nameDB.Live(), tx, tx.outs[j], height)
    ensures ok ==> ctx.Tracks(done + TxEntries(tx))
  {
    hide OutputOk, NoClashes, Unseen, SeenCommits, SeenNames, BucketSteps.NoEmptyLists, Coherence.Coherent, Lru.LruCache.Valid;
    ghost var es := TxEntries(tx);
    assert done + es[..0] == done;
    for i := 0 to |tx.outs|
      invariant nameDB.Valid() && fresh(nameDB.cache.Repr - old(nameDB.cache.Repr))
      invariant NoClashes(done + es[..i]) && ctx.Tracks(done + es[..i])
      invariant forall j :: 0 <= j < i ==> OutputOk(nameDB.Live(), tx, tx.outs[j], height)
    {
      NoClashesOneMore(done + es[..i], es[i]);
      assert (done + es[..i]) + [es[i]] == done + es[..i + 1];
      var valid := ValidateNameOutput(nameDB, tx, tx.outs[i], height, ctx);
      if !valid {
        if NoClashes(done + es) { NoClashesPrefix(done + es, done + es[..i + 1]); }
        return false;
      }
    }
    assert es[..|tx.outs|] == es;
    ok := true;
  }

  method ValidateTransactionNameOps(nameDB: NameDatabase, p: Params, tx: Tx, idx: nat, height: Height, ctx: NameValidationContext,
                                    ghost done: seq<N.Entry>)
    returns (ok: bool)
    requires nameDB.Valid() && ctx !in nameDB.cache.Repr
    requires ctx.Tracks(done) && NoClashes(done)
    modifies ctx, nameDB.cache.Repr
    ensures nameDB.Valid() && fresh(nameDB.cache.Repr - old(nameDB.cache.Repr))
    ensures ok <==> NoClashes(done + TxEntries(tx)) && TxOk(p, Db(nameDB.Names(), nameDB.Utxos()), tx, idx, height)
    ensures ok ==> ctx.Tracks(done + TxEntries(tx))
  {
    hide OutputOk, NoClashes, FeesOk, SeenCommits, SeenNames, BucketSteps.NoEmptyLists, Coherence.Coherent, Lru.LruCache.Valid;
    ok := ValidateNameOpFees(nameDB, p, tx, idx, height);
    if ok {
      ok := ValidateNameOutputs(nameDB, tx, height, ctx, done);
    }
  }

  /** Passes exactly the blocks NamesOk describes. */
  method ValidateNameOperations(nameDB: NameDatabase, p: Params, b: Block, height: Height) returns (ok: bool)
    requires nameDB.Valid()
    modifies nameDB.cache.Repr
    ensures nameDB.Valid() && fresh(nameDB.cache.Repr - old(nameDB.cache.Repr))
    ensures ok <==> NamesOk(p, Db(nameDB.Names(), nameDB.Utxos()), b, height)
  {
    hide TxOk, NoClashes, TxEntries, SeenCommits, SeenNames, BucketSteps.NoEmptyLists, Coherence.Coherent, Lru.LruCache.Valid;
    ghost var db := Db(nameDB.Names(), nameDB.Utxos());
    var ctx := new NameValidationContext();
    NoneSeen(b.txs);
    for i := 0 to |b.txs|
      invariant nameDB.Valid() && fresh(nameDB.cache.Repr - old(nameDB.cache.Repr)) && ctx !in nameDB.cache.Repr
      invariant NoClashes(BlockEntries(b.txs[..i])) && ctx.Tracks(BlockEntries(b.txs[..i]))
      invariant forall j :: 0 <= j < i ==> TxOk(p, db, b.txs[j], j, height)
    {
      EntriesPrefix(b.txs, i);
      var valid := ValidateTransactionNameOps(nameDB, p, b.txs[i], i, height, ctx, BlockEntries(b.txs[..i]));
      if !valid {
        if NoClashes(BlockEntries(b.txs)) { NoClashesPrefix(BlockEntries(b.txs), BlockEntries(b.txs[..i + 1])); }
        return false;
      }
    }
    assert b.txs[..|b.txs|] == b.txs;
    ok := true;
  }

  lemma NoneSeen(txs: seq<Tx>)
    ensures BlockEntries(txs[..0]) == [] && NoClashes([])
  {
  }

  /** The checks of block processing that look at the database. */
  method ValidateBlock(nameDB: NameDatabase, p: Params, b: Block, height: Height) returns (ok: bool)
    requires nameDB.Valid() && p.Valid()
    modifies nameDB.cache.Repr
    ensures nameDB.Valid() && fresh(nameDB.cache.Repr - old(nameDB.cache.Repr))
    ensures ok <==> BlockOk(p, Db(nameDB.Names(), nameDB.Utxos()), b, height)
  {
    hide SubsidyOk, NamesOk, BucketSteps.NoEmptyLists, Coherence.Coherent, Lru.LruCache.Valid;
    ok := ValidateBlockSubsidy(nameDB, p, b, height);
    if ok {
      ok := ValidateNameOperations(nameDB, p, b, height);
    }
  }
}
